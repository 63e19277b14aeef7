/** The offline restore as a sequence of file-system steps, with a crash possible between any two. */
module Restore {
  import opened Options
  import opened Disk
  import Backup

  /** One run: the disk it starts from, the file that is live and what it reads as while the system stays
      up, the content to restore, and the numbers of the snapshot and receipt names the run will use. */
  datatype Claim = Claim(start: Disk, live: Option<nat>, before: Option<Pages>, staged: Pages,
                         snapshot: nat, receipt: nat)

  // ---------------------------------------------------------------- what a step must keep

  /** With this WAL content the live file reads as "old", whatever happened to its dirty pages. */
  ghost predicate Reads(file: File, frames: seq<Frame>, old_: Pages) {
    && file.Database?
    && file.dirty <= Touched(frames)
    && Overlay(file.pages, frames) == old_
  }

  /** The live entry is file "m", and beside every WAL that may survive it reads as "old". */
  ghost predicate LiveIs(d: Disk, m: nat, old_: Pages) {
    && d.Get(LiveDb) == Entry(Some(m), {Some(m)})
    && m in d.files && d.files[m].Database?
    && d.Get(LiveWal).now in d.Get(LiveWal).survivors
    && (None in d.Get(LiveWal).survivors ==> Reads(d.files[m], [], old_))
    && (forall w :: Some(w) in d.Get(LiveWal).survivors ==>
          && w in d.files && d.files[w].Wal? && d.files[w].frames in d.files[w].images
          && forall f :: f in d.files[w].images ==> Reads(d.files[m], f, old_))
  }

  ghost predicate Checkpointed(d: Disk, m: nat, old_: Pages) {
    && d.Get(LiveDb) == Entry(Some(m), {Some(m)})
    && m in d.files && d.files[m] == Database(old_, {})
    && d.Get(LiveWal) == ABSENT
  }

  /** Before the replacement: the old database, or none at all, and no receipt. */
  ghost predicate Before(d: Disk, c: Claim) {
    && NoReceipt(d, c.receipt)
    && match c.live
       case None => c.before == None && d.Get(LiveDb) == ABSENT && Beside(d, c)
       case Some(m) => c.before.Some? && LiveIs(d, m, c.before.value)
  }

  /** What the running system sees: the live file with the cached WAL, whose frames cover its dirty pages. */
  ghost predicate LiveFacts(d: Disk, m: nat, old_: Pages) {
    && d.Get(LiveDb).now == Some(m) && m in d.files && d.files[m].Database?
    && match d.Get(LiveWal).now
       case None => d.files[m] == Database(old_, {})
       case Some(w) => w in d.files && d.files[w].Wal? && Reads(d.files[m], d.files[w].frames, old_)
  }

  /** These committed frames may lie beside the live file after a crash. */
  ghost predicate WalMay(d: Disk, f: seq<Frame>) {
    || (f == [] && None in d.Get(LiveWal).survivors)
    || exists w :: WalMayBe(d, w, f)
  }

  ghost predicate WalMayBe(d: Disk, w: nat, f: seq<Frame>) {
    Some(w) in d.Get(LiveWal).survivors && w in d.files && d.files[w].Wal? && f in d.files[w].images
  }

  /** The live database is still as it was found: commits that were never synced may be lost, but
      nothing else than before the run. */
  ghost predicate Loose(d: Disk, c: Claim) {
    && NoReceipt(d, c.receipt) && WellFormed(c.start) && WellFormed(d)
    && c.live.Some? && c.before.Some? && LiveFacts(d, c.live.value, c.before.value)
    && d.Get(LiveDb).survivors <= c.start.Get(LiveDb).survivors
    && (forall id :: Some(id) in d.Get(LiveDb).survivors ==>
          id in d.files && d.files[id].Database? && id in c.start.files && d.files[id] == c.start.files[id])
    && (forall w :: Some(w) in d.Get(LiveWal).survivors ==> w in d.files && d.files[w].Wal?)
    && (forall f :: WalMay(d, f) ==> WalMay(c.start, f))
  }

  /** Before the replacement: "firm" once what a crash leaves is what the running system sees. */
  ghost predicate Waiting(d: Disk, c: Claim, firm: bool) {
    if firm then Before(d, c) else Loose(d, c)
  }

  /** What is cached is one of the states a crash may leave. */
  ghost predicate WellFormed(d: Disk) {
    && (forall n :: n in d.entries ==> d.entries[n].now in d.entries[n].survivors)
    && (forall id :: id in d.files && d.files[id].Wal? ==> d.files[id].frames in d.files[id].images)
  }

  /** No WAL that may survive changes what "p" reads as. */
  ghost predicate Inert(d: Disk, p: Pages) {
    forall w :: Some(w) in d.Get(LiveWal).survivors ==>
      w in d.files && d.files[w].Wal? && forall f :: f in d.files[w].images ==> Overlay(p, f) == p
  }

  /** Frames that may come to lie beside the staged file: they change nothing, or there was no database
      and they are of the WAL that lay there before the run. */
  ghost predicate BesideStaged(c: Claim, f: seq<Frame>) {
    Overlay(c.staged, f) == c.staged || (c.live.None? && WalMay(c.start, f))
  }

  ghost predicate Beside(d: Disk, c: Claim) {
    forall w :: Some(w) in d.Get(LiveWal).survivors ==>
      w in d.files && d.files[w].Wal? && forall f :: f in d.files[w].images ==> BesideStaged(c, f)
  }

  /** What counts as staged: the staged content, under such frames if there was no database. */
  ghost predicate StagedContent(c: Claim, content: Option<Pages>) {
    content == Some(c.staged) || exists f :: content == Some(Overlay(c.staged, f)) && BesideStaged(c, f)
  }

  /** The old database is self-contained and its snapshot durable: the replacement may be issued. */
  ghost predicate Prepared(d: Disk, c: Claim) {
    && Before(d, c)
    && (c.live.Some? ==> Checkpointed(d, c.live.value, c.before.value) && SnapshotDurable(d, c))
    && Beside(d, c)
  }

  /** The replacement has been issued; it is durable when the old target can no longer survive. */
  ghost predicate Replacing(d: Disk, c: Claim, s: nat) {
    && d.Get(LiveDb).survivors <= {c.live, Some(s)}
    && s in d.files && d.files[s] == Database(c.staged, {})
    && (match c.live
        case None => c.before.None?
        case Some(m) =>
          && c.before.Some? && m in d.files && d.files[m] == Database(c.before.value, {})
          && Inert(d, c.before.value) && SnapshotDurable(d, c))
    && Beside(d, c)
    && ReceiptJustified(d, c, s)
  }

  /** Either no receipt can survive, or the replacement is durable and the receipt whole. */
  ghost predicate ReceiptJustified(d: Disk, c: Claim, s: nat) {
    || NoReceipt(d, c.receipt)
    || (&& d.Get(LiveDb).survivors == {Some(s)} && Inert(d, c.staged)
        && forall q :: Some(q) in d.Get(ReceiptName(c.receipt)).survivors ==>
             q in d.files && d.files[q].ReceiptFile? && d.files[q].synced
             && d.files[q].receipt.restored == Sha256(c.staged))
  }

  /** The snapshot entry durably names a whole copy of the old database, and not the live file itself. */
  ghost predicate SnapshotDurable(d: Disk, c: Claim)
    requires c.before.Some?
  {
    exists q :: IsSnapshot(d, c, q)
  }

  ghost predicate IsSnapshot(d: Disk, c: Claim, q: nat)
    requires c.before.Some?
  {
    && Some(q) != c.live
    && d.Get(Snapshot(c.snapshot)) == Entry(Some(q), {Some(q)})
    && q in d.files && d.files[q] == Database(c.before.value, {})
  }

  ghost predicate NoReceipt(d: Disk, r: nat) {
    d.Get(ReceiptName(r)) == ABSENT
  }

  /** The replacement is durable, and no WAL that may survive changes the staged content. */
  ghost predicate Replaced(d: Disk, c: Claim, s: nat) {
    && Replacing(d, c, s) && NoReceipt(d, c.receipt) && d.Get(LiveDb).survivors == {Some(s)} && Inert(d, c.staged)
  }

  // ---------------------------------------------------------------- crash safety

  /** After any crash here the live database is wholly old or staged; if it is no longer the old one, the
      snapshot of the old one is on disk; and a receipt on disk means the replacement happened and names the
      content that is now live. */
  ghost predicate CrashSafe(d: Disk, c: Claim) {
    forall im :: MayCrashTo(d, im) ==> SafeImage(im, c)
  }

  ghost predicate SafeImage(im: Image, c: Claim) {
    && (Recovered(im) == c.before || StagedContent(c, Recovered(im)))
    && (c.before.Some? && Recovered(im) != c.before ==> HasSnapshot(im, Snapshot(c.snapshot), c.before.value))
    && (ReceiptName(c.receipt) in im.names ==>
          && Recovered(im) == Some(c.staged)
          && im.names[ReceiptName(c.receipt)] in im.files
          && var receipt := im.files[im.names[ReceiptName(c.receipt)]];
             receipt.ReceiptImage? && receipt.receipt.restored == Sha256(c.staged))
  }

  /** A content a crash of "d" could leave. */
  ghost predicate MayRecover(d: Disk, content: Option<Pages>) {
    exists im :: MayCrashTo(d, im) && Recovered(im) == content
  }

  /** A crash here leaves what a crash before the run could have left, and no receipt. */
  ghost predicate LooseSafe(d: Disk, c: Claim) {
    forall im :: MayCrashTo(d, im) ==> MayRecover(c.start, Recovered(im)) && ReceiptName(c.receipt) !in im.names
  }

  ghost predicate Safe(d: Disk, c: Claim, firm: bool) {
    if firm then CrashSafe(d, c) else LooseSafe(d, c)
  }

  /** A plain crash image: everything as cached, but for the live name, its file and its WAL. */
  lemma ChosenImage(d: Disk, db: Option<nat>, file: FileImage, wal: Option<nat>, f: seq<Frame>) returns (im: Image)
    requires WellFormed(d) && db in d.Get(LiveDb).survivors && wal in d.Get(LiveWal).survivors
    requires db.Some? ==> db.value in d.files && FileSurvives(d.files[db.value], file)
    requires match wal case None => f == [] case Some(w) => WalMayBe(d, w, f)
    ensures MayCrashTo(d, im)
    ensures Recovered(im) == if db.Some? && file.DatabaseImage? then Some(Overlay(file.pages, f)) else None
  {
    var names := map n | n in d.entries && n != LiveDb && n != LiveWal && d.entries[n].now.Some? ::
                   d.entries[n].now.value;
    names := if db.Some? then names[LiveDb := db.value] else names;
    names := if wal.Some? then names[LiveWal := wal.value] else names;
    var files := map id | id in d.files ::
      match d.files[id]
      case Database(pages, _) => DatabaseImage(pages)
      case Wal(frames, _) => WalImage(frames)
      case ReceiptFile(r, _) => ReceiptImage(r);
    files := if db.Some? then files[db.value := file] else files;
    files := if wal.Some? then files[wal.value := WalImage(f)] else files;
    im := Image(names, files);
    forall n ensures NameSurvives(d, im, n) {}
    forall id | id in d.files ensures id in im.files && FileSurvives(d.files[id], im.files[id]) {}
  }

  lemma LooseIsSafe(d: Disk, c: Claim)
    requires Loose(d, c)
    ensures LooseSafe(d, c)
  {
    forall im | MayCrashTo(d, im)
      ensures MayRecover(c.start, Recovered(im)) && ReceiptName(c.receipt) !in im.names
    {
      LooseImage(d, c, im);
      assert NameSurvives(d, im, ReceiptName(c.receipt));
    }
  }

  lemma LooseImage(d: Disk, c: Claim, im: Image)
    requires Loose(d, c) && MayCrashTo(d, im)
    ensures MayRecover(c.start, Recovered(im))
  {
    assert NameSurvives(d, im, LiveDb) && NameSurvives(d, im, LiveWal);
    var db, wal := Lookup(im.names, LiveDb), Lookup(im.names, LiveWal);
    var f := [];
    if wal.Some? {
      assert FileSurvives(d.files[wal.value], im.files[wal.value]);
      f := im.files[wal.value].frames;
      assert WalMayBe(d, wal.value, f);
    }
    assert WalMay(d, f);
    var target := if f == [] && None in c.start.Get(LiveWal).survivors then None else
      var w :| WalMayBe(c.start, w, f); Some(w);
    var file := Torn;
    if db.Some? {
      assert FileSurvives(d.files[db.value], im.files[db.value]);
      file := im.files[db.value];
    }
    var im0 := ChosenImage(c.start, db, file, target, f);
    assert MayCrashTo(c.start, im0) && Recovered(im0) == Recovered(im);
  }

  /** The content the running system sees is one of those a crash could leave. */
  lemma CachedMayBeRecovered(d: Disk, c: Claim)
    requires Loose(d, c)
    ensures MayRecover(c.start, c.before)
  {
    var m, wal := c.live.value, d.Get(LiveWal).now;
    var f := if wal.Some? then d.files[wal.value].frames else [];
    assert wal.Some? ==> WalMayBe(d, wal.value, f);
    var im := ChosenImage(d, Some(m), DatabaseImage(d.files[m].pages), wal, f);
    LooseImage(d, c, im);
  }

  lemma WaitingIsSafe(d: Disk, c: Claim, firm: bool)
    requires Waiting(d, c, firm)
    ensures Safe(d, c, firm)
  {
    if firm { BeforeIsSafe(d, c); } else { LooseIsSafe(d, c); }
  }

  lemma ImageOfLive(d: Disk, m: nat, old_: Pages, im: Image)
    requires LiveIs(d, m, old_) && MayCrashTo(d, im)
    ensures Recovered(im) == Some(old_)
  {
    assert NameSurvives(d, im, LiveDb) && NameSurvives(d, im, LiveWal);
    assert FileSurvives(d.files[m], im.files[m]);
    var frames := [];
    match Lookup(im.names, LiveWal) {
      case None =>
      case Some(w) =>
        assert FileSurvives(d.files[w], im.files[w]);
        frames := im.files[w].frames;
    }
    assert Reads(d.files[m], frames, old_);
    OverlayHeals(d.files[m].pages, im.files[m].pages, frames);
  }

  lemma BeforeIsSafe(d: Disk, c: Claim)
    requires Before(d, c)
    ensures CrashSafe(d, c)
  {
    forall im | MayCrashTo(d, im)
      ensures SafeImage(im, c)
    {
      assert NameSurvives(d, im, LiveDb) && NameSurvives(d, im, ReceiptName(c.receipt));
      if c.live.Some? { ImageOfLive(d, c.live.value, c.before.value, im); }
    }
  }

  lemma ImageOfReplacing(d: Disk, c: Claim, s: nat, im: Image)
    requires Replacing(d, c, s) && MayCrashTo(d, im)
    ensures Recovered(im) == c.before || StagedContent(c, Recovered(im))
    ensures d.Get(LiveDb).survivors == {Some(s)} && Inert(d, c.staged) ==> Recovered(im) == Some(c.staged)
    ensures c.before.Some? ==> HasSnapshot(im, Snapshot(c.snapshot), c.before.value)
  {
    assert NameSurvives(d, im, LiveDb) && NameSurvives(d, im, LiveWal) && NameSurvives(d, im, Snapshot(c.snapshot));
    assert FileSurvives(d.files[s], im.files[s]) && im.files[s].pages == c.staged;
    match Lookup(im.names, LiveWal) {
      case None =>
      case Some(w) => assert FileSurvives(d.files[w], im.files[w]);
    }
    if c.live.Some? {
      var m, old_ := c.live.value, c.before.value;
      assert FileSurvives(d.files[m], im.files[m]) && im.files[m].pages == old_;
      var q :| IsSnapshot(d, c, q);
      assert FileSurvives(d.files[q], im.files[q]) && im.files[q].pages == old_;
    }
  }

  lemma ReplacingIsSafe(d: Disk, c: Claim, s: nat)
    requires Replacing(d, c, s)
    ensures CrashSafe(d, c)
  {
    forall im | MayCrashTo(d, im)
      ensures SafeImage(im, c)
    {
      ImageOfReplacing(d, c, s, im);
      assert NameSurvives(d, im, ReceiptName(c.receipt));
      if ReceiptName(c.receipt) in im.names {
        var q := im.names[ReceiptName(c.receipt)];
        assert Some(q) in d.Get(ReceiptName(c.receipt)).survivors;
        assert FileSurvives(d.files[q], im.files[q]);
      }
    }
  }

  /** Copying some of the frames into the main file does not change what is read beside the WAL. */
  lemma CopiedPrefix(start: Pages, frames: seq<Frame>, i: nat)
    requires i <= |frames|
    ensures Overlay(Overlay(start, frames[..i]), frames) == Overlay(start, frames)
  {
    OverlayOff(start, frames[..i]);
    TouchedPrefix(frames, i);
    OverlayHeals(start, Overlay(start, frames[..i]), frames);
  }

  lemma OverlayAgain(start: Pages, frames: seq<Frame>)
    ensures Overlay(Overlay(start, frames), frames) == Overlay(start, frames)
  {
    CopiedPrefix(start, frames, |frames|);
    assert frames[..|frames|] == frames;
  }

  // ---------------------------------------------------------------- one step at a time

  /** What SQLite's work on live file "m" leaves alone. */
  ghost predicate Undisturbed(d: Disk, next: Disk, m: nat) {
    && (forall n :: DirectoryOf(n) != DataDir ==> next.Get(n) == d.Get(n))
    && next.Get(LiveDb).now == d.Get(LiveDb).now
    && next.Get(LiveDb).survivors <= d.Get(LiveDb).survivors + {d.Get(LiveDb).now}
    && (forall id :: id in d.files ==>
          id in next.files && (id != m && !d.files[id].Wal? ==> next.files[id] == d.files[id]))
  }

  lemma UndisturbedSelf(d: Disk, m: nat)
    ensures Undisturbed(d, d, m)
  {
  }

  lemma UndisturbedThen(d: Disk, between: Disk, next: Disk, m: nat)
    requires Undisturbed(d, between, m) && Undisturbed(between, next, m)
    ensures Undisturbed(d, next, m)
  {
  }

  lemma WaitingFacts(d: Disk, c: Claim, firm: bool)
    requires Waiting(d, c, firm) && c.live.Some?
    ensures c.before.Some? && LiveFacts(d, c.live.value, c.before.value)
  {
  }

  lemma CleanWithoutWal(d: Disk, m: nat, content: Pages)
    requires LiveFacts(d, m, content) && d.Get(LiveWal).now.None?
    ensures m in d.files && d.files[m] == Database(content, {}) && Emptied(d)
  {
  }

  /** The cached WAL holds no frame, so that the live file alone is the content. */
  ghost predicate Emptied(d: Disk) {
    match d.Get(LiveWal).now
    case None => true
    case Some(w) => w in d.files && d.files[w].Wal? && d.files[w].frames == []
  }

  /** Opening a database in WAL mode creates an empty WAL when there is none. */
  lemma OpenWal(d: Disk, c: Claim, w: nat, firm: bool)
    requires Waiting(d, c, firm) && c.live.Some? && d.Get(LiveWal).now.None? && w !in d.files
    ensures var next := d.Write(w, Wal([], {[]})).Link(LiveWal, Some(w));
            Waiting(next, c, firm) && Safe(next, c, firm) && Undisturbed(d, next, c.live.value) && Emptied(next)
  {
    var next := d.Write(w, Wal([], {[]})).Link(LiveWal, Some(w));
    if firm {
    } else {
      forall f | WalMay(next, f) ensures WalMay(c.start, f) {
        if x :| WalMayBe(next, x, f) {
          if x != w { assert WalMayBe(d, x, f); }
        }
        assert WalMay(d, f);
      }
    }
    WaitingIsSafe(next, c, firm);
  }

  /** Unlinking the WAL is harmless once it is empty, or its frames are durable in the live file. */
  lemma UnlinkWal(d: Disk, c: Claim, firm: bool)
    requires Waiting(d, c, firm) && c.live.Some? && (firm || Emptied(d))
    requires c.live.value in d.files && d.files[c.live.value] == Database(c.before.value, {})
    ensures var next := d.Link(LiveWal, None);
            && Waiting(next, c, firm) && Safe(next, c, firm) && Undisturbed(d, next, c.live.value) && Emptied(next)
            && next.files[c.live.value] == Database(c.before.value, {})
  {
    var next := d.Link(LiveWal, None);
    if firm {
    } else {
      forall f | WalMay(next, f) ensures WalMay(c.start, f) {
        if x :| WalMayBe(next, x, f) {
          assert WalMayBe(d, x, f);
        } else {
          var now := d.Get(LiveWal).now;
          if now.Some? { assert WalMayBe(d, now.value, []); }
        }
        assert WalMay(d, f);
      }
    }
    WaitingIsSafe(next, c, firm);
  }

  lemma ChangeShm(d: Disk, c: Claim, target: Option<nat>, firm: bool)
    requires Waiting(d, c, firm) && c.live.Some?
    ensures var next := d.Link(LiveShm, target);
            && Waiting(next, c, firm) && Safe(next, c, firm) && Undisturbed(d, next, c.live.value)
            && next.Get(LiveWal) == d.Get(LiveWal) && next.files == d.files
  {
    var next := d.Link(LiveShm, target);
    Elsewhere(d, next, c, firm);
  }

  /** Syncing the WAL and its entry settles what a crash leaves: from here on it is the cached content. */
  lemma SyncWal(d: Disk, c: Claim, w: nat, firm: bool)
    requires Waiting(d, c, firm) && c.live.Some? && d.Get(LiveWal).now == Some(w)
    ensures w in d.files && d.files[w].Wal? && c.live.value in d.files && d.files[c.live.value].Database?
    ensures var d1 := d.SyncFile(w);
            var d2 := d1.SyncDirectory(DataDir);
            && Waiting(d1, c, firm) && Safe(d1, c, firm) && Waiting(d2, c, true) && CrashSafe(d2, c)
            && Copying(d2, c, w, d.files[w].frames, d.files[c.live.value].pages, 0)
            && Undisturbed(d, d1, c.live.value) && Undisturbed(d, d2, c.live.value)
  {
    var d1 := d.SyncFile(w);
    if firm {
    } else {
      forall f | WalMay(d1, f) ensures WalMay(c.start, f) {
        if x :| WalMayBe(d1, x, f) { assert WalMayBe(d, x, f); }
        assert WalMay(d, f);
      }
    }
    WaitingIsSafe(d1, c, firm);
    BeforeIsSafe(d1.SyncDirectory(DataDir), c);
  }

  /** The first "i" frames have been copied into the main file; the WAL is durable and untouched. */
  ghost predicate Copying(d: Disk, c: Claim, w: nat, frames: seq<Frame>, start: Pages, i: nat)
    requires c.live.Some? && i <= |frames|
  {
    && Before(d, c)
    && d.Get(LiveWal) == Entry(Some(w), {Some(w)})
    && w in d.files && d.files[w] == Wal(frames, {frames})
    && c.live.value in d.files && d.files[c.live.value].Database?
    && d.files[c.live.value].pages == Overlay(start, frames[..i])
  }

  function CopyFrame(d: Disk, m: nat, f: Frame): Disk
    requires m in d.files && d.files[m].Database?
  {
    d.Write(m, Database(d.files[m].pages[f.page := f.data], d.files[m].dirty + {f.page}))
  }

  /** Until the next sync a copied page may come back as anything. */
  lemma CopiedMayTear(d: Disk, m: nat, f: Frame, value: int)
    requires m in d.files && d.files[m].Database?
    ensures FileSurvives(CopyFrame(d, m, f).files[m], DatabaseImage(d.files[m].pages[f.page := value]))
    ensures CopyFrame(d, m, f).files[m].pages == Overlay(d.files[m].pages, [f])
  {
    assert [f][..0] == [] && Overlay(d.files[m].pages, []) == d.files[m].pages;
  }

  lemma CopyOne(d: Disk, c: Claim, w: nat, frames: seq<Frame>, start: Pages, i: nat)
    requires c.live.Some? && i < |frames| && Copying(d, c, w, frames, start, i)
    ensures c.live.value in d.files && d.files[c.live.value].Database?
    ensures var next := CopyFrame(d, c.live.value, frames[i]);
            && Copying(next, c, w, frames, start, i + 1) && Waiting(next, c, true) && CrashSafe(next, c)
            && Undisturbed(d, next, c.live.value)
  {
    assert frames[..i + 1][..i] == frames[..i];
    CopiedPrefix(start, frames, i);
    CopiedPrefix(start, frames, i + 1);
    assert frames[i].page in Touched(frames);
    assert Reads(d.files[c.live.value], frames, c.before.value);
    var next := CopyFrame(d, c.live.value, frames[i]);
    assert Reads(next.files[c.live.value], frames, c.before.value);
    BeforeIsSafe(next, c);
  }

  lemma FinishCopy(d: Disk, c: Claim, w: nat, frames: seq<Frame>, start: Pages)
    requires c.live.Some? && Copying(d, c, w, frames, start, |frames|)
    ensures var d1 := d.SyncFile(c.live.value);
            && c.live.value in d.files && Waiting(d1, c, true) && CrashSafe(d1, c) && Undisturbed(d, d1, c.live.value)
            && d1.files[c.live.value] == Database(c.before.value, {})
            && d1.Get(LiveWal) == Entry(Some(w), {Some(w)}) && w in d1.files && d1.files[w] == Wal(frames, {frames})
  {
    var m := c.live.value;
    assert Reads(d.files[m], frames, c.before.value);
    assert frames[..|frames|] == frames;
    OverlayAgain(start, frames);
    BeforeIsSafe(d.SyncFile(m), c);
  }

  /** Cutting the WAL to nothing once its frames are durable in the live file. */
  lemma CutWal(d: Disk, c: Claim, w: nat, frames: seq<Frame>)
    requires Before(d, c) && c.live.Some?
    requires c.live.value in d.files && d.files[c.live.value] == Database(c.before.value, {})
    requires d.Get(LiveWal) == Entry(Some(w), {Some(w)}) && w in d.files && d.files[w] == Wal(frames, {frames})
    ensures var next := d.Write(w, Wal([], {frames, []}));
            Before(next, c) && CrashSafe(next, c) && Undisturbed(d, next, c.live.value) && Emptied(next)
  {
    BeforeIsSafe(d.Write(w, Wal([], {frames, []})), c);
  }

  /** With no sidecar left, syncing the file and its directory prepares the replacement. */
  lemma SettleLive(d: Disk, c: Claim, firm: bool)
    requires Waiting(d, c, firm) && c.live.Some? && c.before.Some? && d.Get(LiveWal).now.None? && SnapshotDurable(d, c)
    ensures c.live.value in d.files
    ensures var d1 := d.SyncFile(c.live.value);
            var d2 := d1.SyncDirectory(DataDir);
            Safe(d1, c, firm) && CrashSafe(d2, c) && Prepared(d2, c)
  {
    WaitingFacts(d, c, firm);
    var d1 := d.SyncFile(c.live.value);
    assert d1.files == d.files;
    WaitingIsSafe(d1, c, firm);
    var d2 := d1.SyncDirectory(DataDir);
    var q :| IsSnapshot(d, c, q);
    assert IsSnapshot(d2, c, q);
    BeforeIsSafe(d2, c);
  }

  /** A step that touches neither the live database, its WAL nor the receipt name. */
  lemma Elsewhere(d: Disk, next: Disk, c: Claim, firm: bool)
    requires Waiting(d, c, firm)
    requires next.Get(LiveDb) == d.Get(LiveDb) && next.Get(LiveWal) == d.Get(LiveWal)
    requires next.Get(ReceiptName(c.receipt)) == d.Get(ReceiptName(c.receipt))
    requires forall id :: id in d.files && (Some(id) in d.Get(LiveDb).survivors || d.files[id].Wal?) ==>
               id in next.files && next.files[id] == d.files[id]
    requires !firm ==> WellFormed(next)
    ensures Waiting(next, c, firm) && Safe(next, c, firm)
  {
    if !firm {
      forall f | WalMay(next, f) ensures WalMay(c.start, f) {
        if x :| WalMayBe(next, x, f) { assert WalMayBe(d, x, f); }
        assert WalMay(d, f);
      }
    }
    WaitingIsSafe(next, c, firm);
  }

  /** A snapshot being taken: file "q" holds the old content and is neither live nor a WAL. */
  ghost predicate Copied(d: Disk, c: Claim, q: nat) {
    && c.live.Some? && c.before.Some? && Some(q) !in d.Get(LiveDb).survivors && Some(q) != c.live
    && q in d.files && d.files[q].Database? && d.files[q].pages == c.before.value
  }

  lemma BeginSnapshot(d: Disk, c: Claim, q: nat, content: Pages, firm: bool)
    requires Waiting(d, c, firm) && c.live.Some? && q !in d.files && content == c.before.value
    ensures var next := d.Write(q, Database(content, content.Keys)).Link(SnapshotTmp, Some(q));
            Copied(next, c, q) && Waiting(next, c, firm) && Safe(next, c, firm)
  {
    Elsewhere(d, d.Write(q, Database(content, content.Keys)).Link(SnapshotTmp, Some(q)), c, firm);
    WaitingFacts(d, c, firm);
  }

  /** Giving a name other than the live database's, its WAL's or the receipt's a new target. */
  lemma LinkElsewhere(d: Disk, c: Claim, n: Name, target: Option<nat>, firm: bool)
    requires Waiting(d, c, firm) && n != LiveDb && n != LiveWal && n != ReceiptName(c.receipt)
    ensures Waiting(d.Link(n, target), c, firm) && Safe(d.Link(n, target), c, firm)
  {
    Elsewhere(d, d.Link(n, target), c, firm);
  }

  lemma SyncCopy(d: Disk, c: Claim, q: nat, firm: bool)
    requires Copied(d, c, q) && Waiting(d, c, firm)
    ensures Copied(d.SyncFile(q), c, q) && Waiting(d.SyncFile(q), c, firm) && Safe(d.SyncFile(q), c, firm)
  {
    Elsewhere(d, d.SyncFile(q), c, firm);
  }

  lemma SyncBackups(d: Disk, c: Claim, firm: bool)
    requires Waiting(d, c, firm)
    ensures Waiting(d.SyncDirectory(BackupDir), c, firm) && Safe(d.SyncDirectory(BackupDir), c, firm)
  {
    Elsewhere(d, d.SyncDirectory(BackupDir), c, firm);
  }

  lemma EndSnapshot(d: Disk, c: Claim, q: nat, firm: bool)
    requires Copied(d, c, q) && Waiting(d, c, firm)
    ensures var d1 := d.Link(Snapshot(c.snapshot), Some(q));
            var d2 := d1.Link(SnapshotTmp, None);
            var d3 := d2.SyncFile(q);
            var d4 := d3.SyncDirectory(BackupDir);
            && Safe(d1, c, firm) && Safe(d2, c, firm) && Safe(d3, c, firm) && Safe(d4, c, firm)
            && Waiting(d4, c, firm) && SnapshotDurable(d4, c)
  {
    hide Safe, Waiting;
    var d1 := d.Link(Snapshot(c.snapshot), Some(q));
    var d2 := d1.Link(SnapshotTmp, None);
    LinkElsewhere(d, c, Snapshot(c.snapshot), Some(q), firm);
    LinkElsewhere(d1, c, SnapshotTmp, None, firm);
    assert Copied(d2, c, q);
    SyncCopy(d2, c, q, firm);
    var d4 := d2.SyncFile(q).SyncDirectory(BackupDir);
    SyncBackups(d2.SyncFile(q), c, firm);
    assert IsSnapshot(d4, c, q);
  }

  lemma StageFile(d: Disk, c: Claim, s: nat)
    requires Prepared(d, c) && s !in d.files
    ensures var d1 := d.Write(s, Database(c.staged, c.staged.Keys)).Link(Staged, Some(s));
            var d2 := d1.SyncFile(s);
            && CrashSafe(d1, c) && CrashSafe(d2, c)
            && Prepared(d2, c) && d2.files[s] == Database(c.staged, {}) && d2.Get(Staged).now == Some(s)
  {
    var d1 := d.Write(s, Database(c.staged, c.staged.Keys)).Link(Staged, Some(s));
    var d2 := d1.SyncFile(s);
    Elsewhere(d, d1, c, true); Elsewhere(d1, d2, c, true);
    if c.live.Some? {
      var q :| IsSnapshot(d, c, q);
      assert IsSnapshot(d2, c, q);
    }
  }

  lemma Replace(d: Disk, c: Claim, s: nat)
    requires Prepared(d, c) && s in d.files && d.files[s] == Database(c.staged, {}) && d.Get(Staged).now == Some(s)
    ensures var d1 := d.Link(LiveWal, None);
            var d2 := d1.Link(LiveShm, None);
            var d3 := d2.Rename(Staged, LiveDb);
            var d4 := d3.SyncDirectory(DataDir);
            && CrashSafe(d1, c) && CrashSafe(d2, c) && CrashSafe(d3, c) && CrashSafe(d4, c)
            && Replaced(d4, c, s)
  {
    var d1 := d.Link(LiveWal, None);
    var d2 := d1.Link(LiveShm, None);
    var d3 := d2.Rename(Staged, LiveDb);
    var d4 := d3.SyncDirectory(DataDir);
    assert Before(d1, c); assert Before(d2, c);
    BeforeIsSafe(d1, c); BeforeIsSafe(d2, c);
    if c.live.Some? {
      var q :| IsSnapshot(d, c, q);
      assert IsSnapshot(d3, c, q) && IsSnapshot(d4, c, q);
    }
    assert Replacing(d3, c, s); assert Replacing(d4, c, s);
    ReplacingIsSafe(d3, c, s); ReplacingIsSafe(d4, c, s);
  }

  /** The receipt is on disk, whole, under its final name, in every state a crash may leave. */
  ghost predicate Completed(im: Image, c: Claim, value: Receipt) {
    && Recovered(im) == Some(c.staged)
    && ReceiptName(c.receipt) in im.names && im.names[ReceiptName(c.receipt)] in im.files
    && im.files[im.names[ReceiptName(c.receipt)]] == ReceiptImage(value)
    && (c.before.Some? ==> HasSnapshot(im, Snapshot(c.snapshot), c.before.value))
  }

  lemma StillReplacing(d: Disk, next: Disk, c: Claim, s: nat)
    requires Replacing(d, c, s) && ReceiptJustified(next, c, s)
    requires next.Get(LiveDb) == d.Get(LiveDb) && next.Get(LiveWal) == d.Get(LiveWal)
    requires c.live.Some? ==> next.Get(Snapshot(c.snapshot)) == d.Get(Snapshot(c.snapshot))
    requires forall id :: id in d.files && !d.files[id].ReceiptFile? ==>
               id in next.files && next.files[id] == d.files[id]
    ensures Replacing(next, c, s) && CrashSafe(next, c)
    ensures Inert(d, c.staged) ==> Inert(next, c.staged)
  {
    if c.live.Some? {
      var q :| IsSnapshot(d, c, q);
      assert IsSnapshot(next, c, q);
    }
    ReplacingIsSafe(next, c, s);
  }

  lemma ChangeWal(d: Disk, next: Disk, c: Claim, s: nat)
    requires Replaced(d, c, s)
    requires forall n :: n != LiveWal ==> next.Get(n) == d.Get(n)
    requires forall id :: id in d.files ==> id in next.files && next.files[id] == d.files[id]
    requires forall w :: Some(w) in next.Get(LiveWal).survivors && Some(w) !in d.Get(LiveWal).survivors ==>
               w in next.files && next.files[w] == Wal([], {[]})
    ensures Replaced(next, c, s) && CrashSafe(next, c)
  {
    if c.live.Some? {
      var q :| IsSnapshot(d, c, q);
      assert IsSnapshot(next, c, q);
    }
    ReplacingIsSafe(next, c, s);
  }

  /** Validating the replaced file opens it: an empty WAL may appear beside it and go again. */
  lemma OpenReplaced(d: Disk, c: Claim, s: nat, w: nat)
    requires Replaced(d, c, s) && w !in d.files
    ensures var d1 := d.Write(w, Wal([], {[]})).Link(LiveWal, Some(w));
            var d2 := d1.Link(LiveWal, None);
            CrashSafe(d1, c) && CrashSafe(d2, c) && Replaced(d2, c, s)
  {
    var d1 := d.Write(w, Wal([], {[]})).Link(LiveWal, Some(w));
    hide Replaced;
    ChangeWal(d, d1, c, s);
    ChangeWal(d1, d1.Link(LiveWal, None), c, s);
  }

  lemma WriteReceiptFile(d: Disk, c: Claim, s: nat, t: nat, value: Receipt)
    requires Replaced(d, c, s) && t !in d.files
    ensures var d1 := d.Write(t, ReceiptFile(value, false)).Link(ReceiptTmp, Some(t));
            var d2 := d1.SyncFile(t);
            && CrashSafe(d1, c) && CrashSafe(d2, c) && Replaced(d2, c, s)
            && d2.files[t] == ReceiptFile(value, true) && d2.Get(ReceiptTmp).now == Some(t)
  {
    var d1 := d.Write(t, ReceiptFile(value, false)).Link(ReceiptTmp, Some(t));
    StillReplacing(d, d1, c, s);
    StillReplacing(d1, d1.SyncFile(t), c, s);
  }

  lemma PublishReceipt(d: Disk, c: Claim, s: nat, t: nat, value: Receipt)
    requires Replaced(d, c, s)
    requires t in d.files && d.files[t] == ReceiptFile(value, true) && d.Get(ReceiptTmp).now == Some(t)
    requires value.restored == Sha256(c.staged)
    ensures var d1 := d.Rename(ReceiptTmp, ReceiptName(c.receipt));
            var d2 := d1.SyncDirectory(BackupDir);
            && CrashSafe(d1, c) && CrashSafe(d2, c)
            && forall im :: MayCrashTo(d2, im) ==> Completed(im, c, value)
  {
    var d1 := d.Rename(ReceiptTmp, ReceiptName(c.receipt));
    var d2 := d1.SyncDirectory(BackupDir);
    RenamedReceipt(d, c, s, t, value);
    hide Replacing, MayCrashTo, CrashSafe, Completed, Inert;
    forall im | MayCrashTo(d2, im)
      ensures Completed(im, c, value)
    {
      PublishedImage(d2, c, s, t, value, im);
    }
  }

  lemma RenamedReceipt(d: Disk, c: Claim, s: nat, t: nat, value: Receipt)
    requires Replaced(d, c, s)
    requires t in d.files && d.files[t] == ReceiptFile(value, true) && d.Get(ReceiptTmp).now == Some(t)
    requires value.restored == Sha256(c.staged)
    ensures var d1 := d.Rename(ReceiptTmp, ReceiptName(c.receipt));
            var d2 := d1.SyncDirectory(BackupDir);
            && CrashSafe(d1, c) && CrashSafe(d2, c) && Replacing(d2, c, s)
            && d2.Get(LiveDb).survivors == {Some(s)} && d2.Get(ReceiptName(c.receipt)) == Entry(Some(t), {Some(t)})
            && Inert(d2, c.staged) && t in d2.files && d2.files[t] == ReceiptFile(value, true)
  {
    var d1 := d.Rename(ReceiptTmp, ReceiptName(c.receipt));
    var d2 := d1.SyncDirectory(BackupDir);
    assert Inert(d1, c.staged) && Inert(d2, c.staged);
    assert ReceiptJustified(d1, c, s) && ReceiptJustified(d2, c, s);
    hide Replacing, ReceiptJustified, Inert;
    StillReplacing(d, d1, c, s);
    StillReplacing(d1, d2, c, s);
  }

  lemma PublishedImage(d: Disk, c: Claim, s: nat, t: nat, value: Receipt, im: Image)
    requires Replacing(d, c, s) && d.Get(LiveDb).survivors == {Some(s)} && Inert(d, c.staged) && MayCrashTo(d, im)
    requires d.Get(ReceiptName(c.receipt)) == Entry(Some(t), {Some(t)})
    requires t in d.files && d.files[t] == ReceiptFile(value, true)
    ensures Completed(im, c, value)
  {
    ImageOfReplacing(d, c, s, im);
    assert NameSurvives(d, im, ReceiptName(c.receipt)) && FileSurvives(d.files[t], im.files[t]);
  }

  lemma SnapshotUndisturbed(d: Disk, next: Disk, c: Claim)
    requires c.live.Some? && c.before.Some? && SnapshotDurable(d, c) && Undisturbed(d, next, c.live.value)
    ensures SnapshotDurable(next, c)
  {
    var q :| IsSnapshot(d, c, q);
    assert IsSnapshot(next, c, q);
  }

  lemma StillCopied(d: Disk, next: Disk, c: Claim, q: nat)
    requires Copied(d, c, q) && Undisturbed(d, next, c.live.value) && d.Get(LiveDb).now == c.live
    ensures Copied(next, c, q)
  {
  }

  // ---------------------------------------------------------------- the machine

  /** The approved digest as a text: 64 hexadecimal digits, or anything else. */
  datatype ApprovedSha = Hex(digest: Backup.ArchiveDigest) | NotHex

  datatype Request = Request(name: string, confirmation: string, approved: ApprovedSha)
  datatype Outcome = Restored(receipt: Receipt) | Failed

  /** The bytes of the database in an archive, if it holds any. */
  function DatabaseIn(archive: Backup.Archive): Option<Backup.Bytes> {
    var member := Backup.Member(archive.entries, Backup.DatabaseMember);
    if member.Some? && member.value.Blob? then Some(member.value.bytes) else None
  }

  lemma AcceptedHasDatabase(archive: Backup.Archive, sqlite: Backup.Bytes -> bool)
    ensures Backup.Accepted(archive, sqlite) ==> DatabaseIn(archive).Some?
    ensures DatabaseIn(archive).Some? ==>
              (Backup.Staged(DatabaseIn(archive).value).Some? <==>
                 |DatabaseIn(archive).value| <= 8 * 1024 * 1024 * 1024)
  {
    hide Backup.Structured, Backup.ChecksumsOk, Backup.ManifestIn;
  }

  lemma SummaryNamesArchive(archive: Backup.Archive)
    requires Backup.ManifestIn(archive.entries).Some?
    requires Backup.VersionOf(Backup.ManifestIn(archive.entries).value).Some?
    ensures Backup.Summary(archive).sha256 == Backup.ArchiveSha(archive)
  {
    hide Backup.ManifestIn;
  }

  lemma StagedWhole(bytes: Backup.Bytes)
    ensures Backup.Staged(bytes).Some? ==> Backup.Staged(bytes).value == bytes
  {
  }

  /** Two successful restores that were approved for one digest end in one database, after any crash. */
  lemma OneDigestOneDatabase(a: Backup.Archive, b: Backup.Archive, layout: Backup.Bytes -> Pages,
                             c1: Claim, c2: Claim, r1: Receipt, r2: Receipt, im1: Image, im2: Image)
    requires DatabaseIn(a).Some? && c1.staged == layout(DatabaseIn(a).value) && r1.approved == Backup.ArchiveSha(a)
    requires DatabaseIn(b).Some? && c2.staged == layout(DatabaseIn(b).value) && r2.approved == Backup.ArchiveSha(b)
    requires Completed(im1, c1, r1) && Completed(im2, c2, r2) && r1.approved == r2.approved
    ensures Recovered(im1) == Recovered(im2) == Some(layout(DatabaseIn(a).value))
  {
  }

  /** The disk a stopped server leaves, however it stopped: directory entries and WAL contents may be
      unsynced.  SQLite writes pages back to the main file only under the WAL that holds them, so the
      cached WAL covers the dirty pages.  A missing database file is durably missing. */
  ghost predicate Stopped(d: Disk) {
    && WellFormed(d)
    && match d.Get(LiveDb).now
       case None =>
         && d.Get(LiveDb) == ABSENT
         && (forall w :: Some(w) in d.Get(LiveWal).survivors ==> w in d.files && d.files[w].Wal?)
       case Some(m) =>
         && (forall id :: Some(id) in d.Get(LiveDb).survivors ==> id in d.files && d.files[id].Database?)
         && (forall w :: Some(w) in d.Get(LiveWal).survivors ==> w in d.files && d.files[w].Wal?)
         && m in d.files && d.files[m].Database?
         && d.files[m].dirty <= Touched(CachedFrames(d))
  }

  function CachedFrames(d: Disk): seq<Frame> {
    var wal := d.Get(LiveWal).now;
    if wal.Some? && wal.value in d.files && d.files[wal.value].Wal? then d.files[wal.value].frames else []
  }

  /** What SQLite reads while the system stays up. */
  function Cached(d: Disk): Option<Pages> {
    var live := d.Get(LiveDb).now;
    if live.Some? && live.value in d.files && d.files[live.value].Database?
    then Some(Overlay(d.files[live.value].pages, CachedFrames(d)))
    else None
  }

  lemma StoppedWaits(d: Disk, c: Claim)
    requires Stopped(d) && NoReceipt(d, c.receipt)
    requires c.start == d && c.live == d.Get(LiveDb).now && c.before == Cached(d)
    ensures Waiting(d, c, c.live.None?)
  {
    var wal := d.Get(LiveWal).now;
    assert LiveWal in d.entries ==> wal in d.Get(LiveWal).survivors;
    if c.live.None? {
      forall w, f | Some(w) in d.Get(LiveWal).survivors && f in d.files[w].images ensures BesideStaged(c, f) {
        assert WalMayBe(d, w, f);
      }
    }
  }

  lemma WaitingName(d: Disk, c: Claim, firm: bool)
    requires Waiting(d, c, firm)
    ensures d.Get(LiveDb).now == c.live && (c.live.Some? ==> c.before.Some?) && (c.live.None? ==> firm)
  {
  }

  lemma NothingLive(d: Disk, c: Claim)
    requires Waiting(d, c, true) && c.live.None?
    ensures Prepared(d, c)
  {
  }

  /** The disk under one restore.  "trace" lists every disk state a crash could interrupt.  Up to
      "firmFrom" a crash leaves what a crash before the run could have left; from there on it leaves
      exactly what the running system read, or the staged content.  "troubled" is set by every operation
      that goes wrong, of which any may, and "failed" where that is not passed over in silence. */
  class Machine {
    var disk: Disk
    const snapshotId: nat
    const receiptId: nat
    ghost const claim: Claim
    ghost var trace: seq<Disk>
    ghost var firmFrom: nat
    ghost var failed: bool
    ghost var troubled: bool

    ghost predicate Valid()
      reads this`disk, this`trace, this`firmFrom
    {
      && snapshotId == claim.snapshot && receiptId == claim.receipt
      && trace != [] && trace[|trace| - 1] == disk && firmFrom <= |trace|
      && (claim.live.Some? ==> claim.before.Some? && MayRecover(claim.start, claim.before))
      && (claim.live.None? ==> claim.before.None? && firmFrom == 0)
      && (forall i :: 0 <= i < firmFrom ==> LooseSafe(trace[i], claim))
      && (forall i :: firmFrom <= i < |trace| ==> CrashSafe(trace[i], claim))
    }

    ghost predicate Firm()
      reads this`trace, this`firmFrom
    {
      firmFrom < |trace|
    }

    /** What every method may assume of the past: the trace only grows, and what is firm stays firm. */
    twostate predicate Extends()
      reads this
    {
      old(trace) <= trace && (old(Firm()) ==> firmFrom == old(firmFrom))
    }

    /** And no failure has been reported in between. */
    twostate predicate Continues()
      reads this
    {
      Extends() && failed == old(failed) && (old(troubled) ==> troubled)
    }

    constructor (start: Disk, staged: Pages, snapshot: nat, receipt: nat)
      requires Stopped(start) && NoReceipt(start, receipt)
      ensures Valid() && disk == start && trace == [start] && (Firm() <==> claim.live.None?)
      ensures claim == Claim(start, start.Get(LiveDb).now, Cached(start), staged, snapshot, receipt)
      ensures Waiting(disk, claim, Firm()) && !failed && !troubled
    {
      ghost var c := Claim(start, start.Get(LiveDb).now, Cached(start), staged, snapshot, receipt);
      disk, snapshotId, receiptId := start, snapshot, receipt;
      claim, trace, firmFrom, failed, troubled := c, [start], if c.live.None? then 0 else 1, false, false;
      StoppedWaits(start, c);
      WaitingIsSafe(start, c, c.live.None?);
      if c.live.Some? { CachedMayBeRecovered(start, c); }
    }

    /** A crash at any point of any run recovers a content that a crash before the run could have left, or
        the staged one; never anything else.  Once the WAL is settled it is the cached content or the staged
        one, and where that is no longer the cached content, its snapshot is on disk.  With no database at
        first, and only then, the staged file may come to lie under the WAL that was left there. */
    lemma TraceRecovers(i: nat, im: Image)
      requires Valid() && i < |trace| && MayCrashTo(trace[i], im)
      ensures claim.live.Some? ==> MayRecover(claim.start, Recovered(im)) || Recovered(im) == Some(claim.staged)
      ensures claim.live.Some? && i >= firmFrom ==> Recovered(im) in {claim.before, Some(claim.staged)}
      ensures claim.live.None? ==>
                || Recovered(im) in {None, Some(claim.staged)}
                || exists f :: WalMay(claim.start, f) && Recovered(im) == Some(Overlay(claim.staged, f))
      ensures claim.live.Some? && !MayRecover(claim.start, Recovered(im)) ==>
                HasSnapshot(im, Snapshot(claim.snapshot), claim.before.value)
      ensures i >= firmFrom && claim.live.Some? && Recovered(im) != claim.before ==>
                HasSnapshot(im, Snapshot(claim.snapshot), claim.before.value)
      ensures ReceiptName(claim.receipt) in im.names ==> Recovered(im) == Some(claim.staged)
    {
      if i < firmFrom {
        assert LooseSafe(trace[i], claim);
      } else {
        assert CrashSafe(trace[i], claim);
        assert SafeImage(im, claim);
        if claim.live.None? && Recovered(im) !in {None, Some(claim.staged)} {
          var f :| Recovered(im) == Some(Overlay(claim.staged, f)) && BesideStaged(claim, f);
          assert WalMay(claim.start, f);
        }
      }
    }

    /** A step after which only the settled contents can be left. */
    method Step(next: Disk)
      requires Valid() && CrashSafe(next, claim)
      modifies this
      ensures Valid() && disk == next && trace == old(trace) + [next] && Firm() && firmFrom == old(firmFrom)
      ensures failed == old(failed) && troubled == old(troubled)
    {
      disk := next;
      trace := trace + [next];
    }

    /** A step that settles nothing. */
    method StepOn(next: Disk)
      requires Valid() && Safe(next, claim, Firm())
      modifies this
      ensures Valid() && disk == next && trace == old(trace) + [next] && Firm() == old(Firm())
      ensures (Firm() ==> firmFrom == old(firmFrom)) && failed == old(failed) && troubled == old(troubled)
    {
      if !Firm() { firmFrom := firmFrom + 1; }
      disk := next;
      trace := trace + [next];
    }

    method NewId() returns (id: nat)
      ensures id !in disk.files
    {
      FreshExists(disk.files.Keys);
      id :| id !in disk.files;
    }

    /** Opening the live database: in WAL mode a missing WAL and its index are created. */
    method OpenLive(m: nat)
      requires Valid() && Waiting(disk, claim, Firm()) && claim.live == Some(m)
      modifies this
      ensures Valid() && Waiting(disk, claim, Firm()) && Firm() == old(Firm()) && Continues()
      ensures Undisturbed(old(disk), disk, m) && (Emptied(old(disk)) ==> Emptied(disk))
    {
      hide Waiting, Valid, Safe;
      if * { return; }
      if disk.Get(LiveWal).now.None? {
        var w := NewId();
        OpenWal(disk, claim, w, Firm());
        StepOn(disk.Write(w, Wal([], {[]})).Link(LiveWal, Some(w)));
      }
      var shm := NewId();
      ChangeShm(disk, claim, Some(shm), Firm());
      StepOn(disk.Link(LiveShm, Some(shm)));
    }

    /** The work of a checkpoint on a WAL with frames: the WAL is synced, its frames are copied into the
        main file page by page, and the main file is synced. */
    method CopyFrames(m: nat, w: nat) returns (ok: bool)
      requires Valid() && Waiting(disk, claim, Firm()) && claim.live == Some(m) && disk.Get(LiveWal).now == Some(w)
      modifies this
      ensures Valid() && Waiting(disk, claim, true) && Firm() && Continues()
      ensures ok ==>
                && claim.before.Some? && m in disk.files && disk.files[m] == Database(claim.before.value, {})
                && disk.Get(LiveWal) == Entry(Some(w), {Some(w)})
                && w in disk.files && exists frames :: disk.files[w] == Wal(frames, {frames})
      ensures !ok ==> troubled
      ensures Undisturbed(old(disk), disk, m)
    {
      var frames, start := SettleWal(m, w);
      hide Waiting, Valid, Undisturbed, Copying;
      label synced:
      ok := CopyAll(m, w, frames, start);
      UndisturbedThen(old(disk), old@synced(disk), disk, m);
    }

    /** The WAL and its directory are synced before anything is copied. */
    method SettleWal(m: nat, w: nat) returns (frames: seq<Frame>, ghost start: Pages)
      requires Valid() && Waiting(disk, claim, Firm()) && claim.live == Some(m) && disk.Get(LiveWal).now == Some(w)
      modifies this
      ensures Valid() && Waiting(disk, claim, true) && Firm() && Continues()
      ensures claim.before.Some? && Copying(disk, claim, w, frames, start, 0)
      ensures Undisturbed(old(disk), disk, m)
    {
      WaitingFacts(disk, claim, Firm());
      hide Waiting, Safe, Before, CrashSafe, Valid, Undisturbed, Copying, LiveFacts;
      SyncWal(disk, claim, w, Firm());
      frames := disk.files[w].frames;
      start := disk.files[m].pages;
      StepOn(disk.SyncFile(w));
      Step(disk.SyncDirectory(DataDir));
    }

    method CopyAll(m: nat, w: nat, frames: seq<Frame>, ghost start: Pages) returns (ok: bool)
      requires Valid() && Firm() && Waiting(disk, claim, true)
      requires claim.live == Some(m) && claim.before.Some? && Copying(disk, claim, w, frames, start, 0)
      modifies this
      ensures Valid() && Firm() && Waiting(disk, claim, true) && Continues()
      ensures ok ==>
                && m in disk.files && disk.files[m] == Database(claim.before.value, {})
                && disk.Get(LiveWal) == Entry(Some(w), {Some(w)})
                && w in disk.files && disk.files[w] == Wal(frames, {frames})
      ensures !ok ==> troubled
      ensures Undisturbed(old(disk), disk, m)
    {
      UndisturbedSelf(disk, m);
      hide Waiting, CrashSafe, Valid, Undisturbed, Copying;
      ok := false;
      for i := 0 to |frames|
        invariant Valid() && Firm() && Continues() && Waiting(disk, claim, true)
        invariant Copying(disk, claim, w, frames, start, i) && Undisturbed(old(disk), disk, m)
      {
        if * { troubled := true; return; }
        CopyOne(disk, claim, w, frames, start, i);
        UndisturbedThen(old(disk), disk, CopyFrame(disk, m, frames[i]), m);
        Step(CopyFrame(disk, m, frames[i]));
      }
      FinishCopy(disk, claim, w, frames, start);
      UndisturbedThen(old(disk), disk, disk.SyncFile(m), m);
      Step(disk.SyncFile(m));
      ok := true;
    }

    /** wal_checkpoint(TRUNCATE), which reports when another connection is in its way: an empty WAL needs no
        work; otherwise it is cut to nothing only after its frames are durable in the main file. */
    method Checkpoint(m: nat) returns (ok: bool)
      requires Valid() && Waiting(disk, claim, Firm()) && claim.live == Some(m)
      requires !failed
      modifies this
      ensures Valid() && Waiting(disk, claim, Firm()) && Extends()
      ensures ok ==> Emptied(disk)
      ensures (ok <==> !failed) && (failed ==> troubled)
      ensures Undisturbed(old(disk), disk, m)
    {
      WaitingFacts(disk, claim, Firm());
      hide Before, Loose, CrashSafe, Valid, LooseSafe;
      var wal := disk.Get(LiveWal).now;
      if * { failed, troubled := true, true; return false; }
      if wal.None? || disk.files[wal.value].frames == [] { return true; }
      var w := wal.value;
      ok := CopyFrames(m, w);
      if !ok { failed := true; return; }
      var frames := disk.files[w].frames;
      CutWal(disk, claim, w, frames);
      Step(disk.Write(w, Wal([], {frames, []})));
    }

    /** Closing the last connection: what is left in the WAL is checkpointed, then WAL and index go.  If the
        checkpoint fails they stay, and nobody is told. */
    method CloseLive(m: nat) returns (ok: bool)
      requires Valid() && Waiting(disk, claim, Firm()) && claim.live == Some(m)
      modifies this
      ensures Valid() && Waiting(disk, claim, Firm()) && Continues()
      ensures ok ==> disk.Get(LiveWal).now.None? && disk.Get(LiveShm).now.None?
      ensures Emptied(old(disk)) ==> ok
      ensures Undisturbed(old(disk), disk, m)
    {
      WaitingFacts(disk, claim, Firm());
      UndisturbedSelf(disk, m);
      hide Waiting, Valid, Undisturbed;
      ok := true;
      var wal := disk.Get(LiveWal).now;
      if wal.Some? && disk.files[wal.value].frames != [] {
        ok := CopyFrames(m, wal.value);
        if !ok { return; }
      }
      label copied:
      RemoveSidecars(m);
      UndisturbedThen(old(disk), old@copied(disk), disk, m);
    }

    /** The WAL and its index are unlinked. */
    method RemoveSidecars(m: nat)
      requires Valid() && Waiting(disk, claim, Firm()) && claim.live == Some(m) && (Firm() || Emptied(disk))
      requires claim.before.Some? && m in disk.files && disk.files[m] == Database(claim.before.value, {})
      modifies this
      ensures Valid() && Waiting(disk, claim, Firm()) && Continues()
      ensures disk.Get(LiveWal).now.None? && disk.Get(LiveShm).now.None?
      ensures Undisturbed(old(disk), disk, m)
    {
      hide Waiting, Safe, Valid, Undisturbed, Emptied;
      UnlinkWal(disk, claim, Firm());
      StepOn(disk.Link(LiveWal, None));
      ChangeShm(disk, claim, None, Firm());
      UndisturbedThen(old(disk), disk, disk.Link(LiveShm, None), m);
      StepOn(disk.Link(LiveShm, None));
    }

    /** create_backup for the pre-restore snapshot, then its fsyncs. */
    method SnapshotLive(m: nat) returns (ok: bool)
      requires Valid() && Waiting(disk, claim, Firm()) && claim.live == Some(m)
      requires !failed
      modifies this
      ensures Valid() && Waiting(disk, claim, Firm()) && Extends()
      ensures ok ==> claim.before.Some? && SnapshotDurable(disk, claim)
      ensures failed ==> troubled
      ensures ok <==> !failed && old(disk).Get(Snapshot(snapshotId)).now.None?
      ensures old(disk).Get(Snapshot(snapshotId)).now.Some? ==> disk == old(disk) && trace == old(trace) && !failed
    {
      ok := false;
      if disk.Get(Snapshot(snapshotId)).now.Some? { return; }
      var q := CopyLive(m);
      if * { failed, troubled := true, true; return; }
      PublishSnapshot(q);
      ok := true;
    }

    /** The copy into a temporary file: open, read, write, and close again. */
    method CopyLive(m: nat) returns (q: nat)
      requires Valid() && Waiting(disk, claim, Firm()) && claim.live == Some(m)
      modifies this
      ensures Valid() && Waiting(disk, claim, Firm()) && Continues() && Copied(disk, claim, q)
    {
      hide Before, Loose, CrashSafe, Valid, LooseSafe;
      OpenLive(m);
      WaitingFacts(disk, claim, Firm());
      var content := Overlay(disk.files[m].pages,
        match disk.Get(LiveWal).now case None => [] case Some(w) => disk.files[w].frames);
      q := NewId();
      BeginSnapshot(disk, claim, q, content, Firm());
      StepOn(disk.Write(q, Database(content, content.Keys)).Link(SnapshotTmp, Some(q)));
      WaitingFacts(disk, claim, Firm());
      hide Waiting, Safe, Copied, Undisturbed;
      label copied:
      var _ := CloseLive(m);
      StillCopied(old@copied(disk), disk, claim, q);
    }

    method PublishSnapshot(q: nat)
      requires Valid() && Waiting(disk, claim, Firm()) && Copied(disk, claim, q)
      modifies this
      ensures Valid() && Waiting(disk, claim, Firm()) && Continues() && SnapshotDurable(disk, claim)
    {
      assert snapshotId == claim.snapshot;
      hide Waiting, Valid, Safe, SnapshotDurable;
      EndSnapshot(disk, claim, q, Firm());
      StepOn(disk.Link(Snapshot(snapshotId), Some(q)));
      StepOn(disk.Link(SnapshotTmp, None));
      StepOn(disk.SyncFile(q));
      StepOn(disk.SyncDirectory(BackupDir));
    }

    /** _checkpoint_live_database: make the live file self-contained, drop its sidecars, open and close it
        once more to validate it, and sync file and directory. */
    method CheckpointLive(m: nat) returns (ok: bool)
      requires Valid() && Waiting(disk, claim, Firm()) && claim.live == Some(m)
      requires claim.before.Some? && SnapshotDurable(disk, claim)
      requires !failed
      modifies this
      ensures Valid() && Extends()
      ensures ok ==> Prepared(disk, claim) && Firm()
      ensures (ok <==> !failed) && (failed ==> troubled)
    {
      hide Waiting, CrashSafe, Valid, SnapshotDurable, Prepared, Safe, Undisturbed;
      ok := EmptyLive(m);
      if !ok { return; }
      SnapshotUndisturbed(old(disk), disk, claim);
      label emptied:
      ok := OpenAndClose(m);
      if !ok { return; }
      SnapshotUndisturbed(old@emptied(disk), disk, claim);
      ok := false;
      if * { failed, troubled := true, true; return; }
      SettleLive(disk, claim, Firm());
      StepOn(disk.SyncFile(m));
      Step(disk.SyncDirectory(DataDir));
      ok := true;
    }

    /** The checkpoint's own connection, which is closed in any case, and the unlinks that follow. */
    method EmptyLive(m: nat) returns (ok: bool)
      requires Valid() && Waiting(disk, claim, Firm()) && claim.live == Some(m)
      requires !failed
      modifies this
      ensures Valid() && Waiting(disk, claim, Firm()) && Extends()
      ensures ok ==> disk.Get(LiveWal).now.None? && disk.Get(LiveShm).now.None?
      ensures (ok <==> !failed) && (failed ==> troubled)
      ensures Undisturbed(old(disk), disk, m)
    {
      hide Waiting, Valid, Undisturbed, LiveFacts, Emptied;
      OpenLive(m);
      label o:
      ok := Checkpoint(m);
      UndisturbedThen(old(disk), old@o(disk), disk, m);
      label checked:
      var _ := CloseLive(m);
      UndisturbedThen(old(disk), old@checked(disk), disk, m);
      if !ok { return; }
      label closed:
      WaitingFacts(disk, claim, Firm());
      CleanWithoutWal(disk, m, claim.before.value);
      RemoveSidecars(m);
      UndisturbedThen(old(disk), old@closed(disk), disk, m);
    }

    /** A validation of the live file: a connection that reads and is closed. */
    method OpenAndClose(m: nat) returns (ok: bool)
      requires Valid() && Waiting(disk, claim, Firm()) && claim.live == Some(m) && Emptied(disk)
      requires !failed
      modifies this
      ensures Valid() && Waiting(disk, claim, Firm()) && Extends()
      ensures ok ==> disk.Get(LiveWal).now.None?
      ensures (ok <==> !failed) && (failed ==> troubled)
      ensures Undisturbed(old(disk), disk, m)
    {
      hide Waiting, Valid, Undisturbed;
      OpenLive(m);
      label o:
      var closed := CloseLive(m);
      UndisturbedThen(old(disk), old@o(disk), disk, m);
      ok := true;
      if * { ok, failed, troubled := false, true, true; }
    }

    /** The staging and the one atomic replacement. */
    method StageAndReplace(staged: Pages) returns (ok: bool, ghost s: nat)
      requires Valid() && Firm() && Prepared(disk, claim) && claim.staged == staged
      requires !failed
      modifies this
      ensures Valid() && Firm() && Extends()
      ensures ok ==>
                Replaced(disk, claim, s)
      ensures (ok <==> !failed) && (failed ==> troubled)
    {
      hide CrashSafe, Valid, Prepared, Replaced;
      ok := false;
      var id := NewId();
      s := id;
      StageFile(disk, claim, id);
      Step(disk.Write(id, Database(staged, staged.Keys)).Link(Staged, Some(id)));
      if * { failed, troubled := true, true; return; }
      Step(disk.SyncFile(id));
      ReplaceLive(id);
      ValidateReplaced(id);
      if * { failed, troubled := true, true; return; }
      ok := true;
    }

    /** The sidecars are unlinked once more, then one rename and one directory sync. */
    method ReplaceLive(s: nat)
      requires Valid() && Firm() && Prepared(disk, claim)
      requires s in disk.files && disk.files[s] == Database(claim.staged, {}) && disk.Get(Staged).now == Some(s)
      modifies this
      ensures Valid() && Firm() && Continues() && Replaced(disk, claim, s)
    {
      hide CrashSafe, Valid, Prepared, Replaced;
      Replace(disk, claim, s);
      Step(disk.Link(LiveWal, None));
      Step(disk.Link(LiveShm, None));
      Step(disk.Rename(Staged, LiveDb));
      Step(disk.SyncDirectory(DataDir));
    }

    /** The replaced file is opened once more to validate it. */
    method ValidateReplaced(s: nat)
      requires Valid() && Firm() && Replaced(disk, claim, s)
      modifies this
      ensures Valid() && Firm() && Continues() && Replaced(disk, claim, s)
    {
      hide Valid, CrashSafe, Replaced;
      if * { return; }
      var w := NewId();
      OpenReplaced(disk, claim, s, w);
      Step(disk.Write(w, Wal([], {[]})).Link(LiveWal, Some(w)));
      Step(disk.Link(LiveWal, None));
    }

    /** _write_receipt: a synced temporary file, one rename, one directory sync. */
    method WriteReceipt(value: Receipt, ghost s: nat) returns (ok: bool)
      requires Valid() && Replaced(disk, claim, s)
      requires value.restored == Sha256(claim.staged)
      requires !failed
      modifies this
      ensures Valid() && Extends()
      ensures ok ==> forall im :: MayCrashTo(disk, im) ==> Completed(im, claim, value)
      ensures (ok <==> !failed) && (failed ==> troubled)
    {
      ok := false;
      var name := ReceiptName(receiptId);
      hide CrashSafe, Valid, Replaced, MayCrashTo, Completed;
      var t := NewId();
      WriteReceiptFile(disk, claim, s, t, value);
      Step(disk.Write(t, ReceiptFile(value, false)).Link(ReceiptTmp, Some(t)));
      if * { failed, troubled := true, true; return; }
      Step(disk.SyncFile(t));
      PublishReceipt(disk, claim, s, t, value);
      Step(disk.Rename(ReceiptTmp, name));
      Step(disk.SyncDirectory(BackupDir));
      ok := true;
    }

    /** restore_backup_offline.  A missing live database is restored over as well.  "sqlite" stands for SQLite's
        checks of the archived database, "layout" for the pages its bytes are. */
    method RestoreOffline(request: Request, lockFree: bool, archive: Backup.Archive, sqlite: Backup.Bytes -> bool,
                          layout: Backup.Bytes -> Pages)
      returns (outcome: Outcome)
      requires Valid() && Waiting(disk, claim, Firm()) && !failed
      requires DatabaseIn(archive).Some? ==> claim.staged == layout(DatabaseIn(archive).value)
      modifies this
      ensures Valid() && Extends()
      ensures failed ==> troubled
      ensures outcome.Restored? <==>
                && lockFree && request.confirmation == "RESTORE " + request.name
                && request.approved == Hex(Backup.ArchiveSha(archive)) && Backup.Accepted(archive, sqlite)
                && (claim.live.None? || old(disk).Get(Snapshot(snapshotId)).now.None?)
                && |DatabaseIn(archive).value| <= 8 * 1024 * 1024 * 1024
                && !failed
      ensures || !lockFree || request.confirmation != "RESTORE " + request.name
              || request.approved != Hex(Backup.ArchiveSha(archive)) || !Backup.Accepted(archive, sqlite)
              || (claim.live.Some? && old(disk).Get(Snapshot(snapshotId)).now.Some?)
              ==> disk == old(disk) && trace == old(trace) && failed == old(failed)
      ensures outcome.Restored? ==>
                && outcome.receipt.approved == Backup.ArchiveSha(archive)
                && outcome.receipt.restored == Sha256(layout(DatabaseIn(archive).value))
                && outcome.receipt.preRestore == (if claim.live.Some? then Some(Snapshot(snapshotId)) else None)
                && Firm() && forall im :: MayCrashTo(disk, im) ==> Completed(im, claim, outcome.receipt)
    {
      outcome := Failed;
      if request.confirmation != "RESTORE " + request.name || request.approved.NotHex? || !lockFree { return; }
      AcceptedHasDatabase(archive, sqlite);
      hide *;
      var validation := Backup.ValidateBackup(archive, sqlite);
      if validation.None? { return; }
      SummaryNamesArchive(archive);
      if validation.value.sha256 != request.approved.digest { return; }
      var bytes := DatabaseIn(archive).value;
      outcome := RestoreApproved(Backup.ArchiveSha(archive), bytes, layout);
    }

    /** What follows the approval: snapshot and checkpoint, staging, replacement and receipt. */
    method RestoreApproved(approved: Backup.ArchiveDigest, bytes: Backup.Bytes, layout: Backup.Bytes -> Pages)
      returns (outcome: Outcome)
      requires Valid() && Waiting(disk, claim, Firm()) && claim.staged == layout(bytes) && !failed
      modifies this
      ensures Valid() && Extends()
      ensures failed ==> troubled
      ensures outcome.Restored? <==>
                && (claim.live.None? || old(disk).Get(Snapshot(snapshotId)).now.None?)
                && Backup.Staged(bytes).Some? && !failed
      ensures claim.live.Some? && old(disk).Get(Snapshot(snapshotId)).now.Some? ==>
                disk == old(disk) && trace == old(trace) && failed == old(failed)
      ensures outcome.Restored? ==>
                && outcome.receipt.approved == approved && outcome.receipt.restored == Sha256(layout(bytes))
                && outcome.receipt.preRestore == (if claim.live.Some? then Some(Snapshot(snapshotId)) else None)
                && Firm() && forall im :: MayCrashTo(disk, im) ==> Completed(im, claim, outcome.receipt)
    {
      outcome := Failed;
      var done, existing := PrepareTarget();
      if !done { return; }
      hide *;
      var copied := Backup.CopyMemberBounded(bytes);
      StagedWhole(bytes);
      if copied.None? { return; }
      ghost var s;
      done, s := StageAndReplace(layout(copied.value));
      if !done { return; }
      var value := Receipt(approved, Sha256(layout(copied.value)),
                           if existing.Some? then Some(Snapshot(snapshotId)) else None);
      done := WriteReceipt(value, s);
      if done { outcome := Restored(value); }
    }

    /** What comes before the staging: an existing database is copied aside and made self-contained. */
    method PrepareTarget() returns (ok: bool, existing: Option<nat>)
      requires Valid() && Waiting(disk, claim, Firm()) && !failed
      modifies this
      ensures Valid() && Extends() && existing == claim.live
      ensures ok ==> Prepared(disk, claim) && Firm()
      ensures failed ==> troubled
      ensures ok <==> !failed && (claim.live.None? || old(disk).Get(Snapshot(snapshotId)).now.None?)
      ensures claim.live.Some? && old(disk).Get(Snapshot(snapshotId)).now.Some? ==>
                disk == old(disk) && trace == old(trace) && failed == old(failed)
    {
      WaitingName(disk, claim, Firm());
      hide Waiting, Valid, Prepared, SnapshotDurable;
      existing := disk.Get(LiveDb).now;
      ok := true;
      if existing.Some? {
        ok := SnapshotLive(existing.value);
        if !ok { return; }
        ok := CheckpointLive(existing.value);
      } else {
        NothingLive(disk, claim);
      }
    }
  }

  // ---------------------------------------------------------------- when there is no live database

  /** With no live file the restore skips the checkpoint, so a leftover WAL is removed only by an
      unsynced unlink.  After the rename every crash leaves nothing or exactly the staged content if and
      only if that WAL changes nothing. */
  lemma StaleWalDecides(d: Disk, staged: Pages, s: nat, w: nat)
    requires d.Get(LiveDb) == ABSENT && d.Get(Staged).now == Some(s)
    requires s in d.files && d.files[s] == Database(staged, {})
    requires d.Get(LiveWal) == Entry(Some(w), {Some(w)}) && w in d.files && d.files[w].Wal?
    requires WellFormed(d)
    ensures var next := d.Link(LiveWal, None).Link(LiveShm, None).Rename(Staged, LiveDb);
            (forall im :: MayCrashTo(next, im) ==> Recovered(im) in {None, Some(staged)}) <==> Inert(d, staged)
  {
    var next := d.Link(LiveWal, None).Link(LiveShm, None).Rename(Staged, LiveDb);
    if Inert(d, staged) {
      forall im | MayCrashTo(next, im) ensures Recovered(im) in {None, Some(staged)} {
        assert NameSurvives(next, im, LiveDb) && NameSurvives(next, im, LiveWal);
        assert FileSurvives(next.files[s], im.files[s]) && im.files[s].pages == staged;
        assert FileSurvives(next.files[w], im.files[w]);
      }
    } else {
      var f :| f in d.files[w].images && Overlay(staged, f) != staged;
      var im := WorstCase(next, s, w, f);
      assert Recovered(im) == Some(Overlay(staged, f));
    }
  }

  /** The rename survived, the unlink of the WAL did not. */
  lemma WorstCase(d: Disk, s: nat, w: nat, f: seq<Frame>) returns (im: Image)
    requires Some(s) in d.Get(LiveDb).survivors && s in d.files && d.files[s].Database? && d.files[s].dirty == {}
    requires Some(w) in d.Get(LiveWal).survivors && w in d.files && d.files[w].Wal? && f in d.files[w].images
    requires WellFormed(d)
    ensures MayCrashTo(d, im)
    ensures Recovered(im) == Some(Overlay(d.files[s].pages, f))
  {
    var names := map n | n in d.entries && d.entries[n].now.Some? :: d.entries[n].now.value;
    var files := map id | id in d.files ::
      match d.files[id]
      case Database(pages, _) => DatabaseImage(pages)
      case Wal(frames, _) => WalImage(frames)
      case ReceiptFile(r, _) => ReceiptImage(r);
    im := Image(names[LiveDb := s][LiveWal := w], files[w := WalImage(f)]);
    forall n ensures NameSurvives(d, im, n) {}
  }

  /** The stopped database reads the same after any crash exactly when every WAL content that may
      survive reads the same: commits the server never synced are what a crash can take back. */
  lemma StoppedDatabaseDecides(d: Disk, m: nat, w: nat, old_: Pages)
    requires WellFormed(d)
    requires d.Get(LiveDb) == Entry(Some(m), {Some(m)})
    requires m in d.files && d.files[m].Database? && d.files[m].dirty == {}
    requires d.Get(LiveWal) == Entry(Some(w), {Some(w)}) && w in d.files && d.files[w].Wal?
    ensures LiveIs(d, m, old_) <==> forall im :: MayCrashTo(d, im) ==> Recovered(im) == Some(old_)
  {
    if LiveIs(d, m, old_) {
      forall im | MayCrashTo(d, im) ensures Recovered(im) == Some(old_) { ImageOfLive(d, m, old_, im); }
    } else {
      var f :| f in d.files[w].images && !Reads(d.files[m], f, old_);
      var im := WorstCase(d, m, w, f);
    }
  }
}
