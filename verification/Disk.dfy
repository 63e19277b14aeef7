/** What a power failure may leave behind.

    A file has a cached state, seen by running processes, and a set of states it
    may have after a crash.  A directory entry has a current target and every
    target it may still have after a crash.  No ordering of unsynced directory
    operations is assumed: each entry survives independently of every other, so
    whatever is proved here also holds on a file system that orders them. */
module Disk {
  import opened Options
  import Backup

  type Pages = map<nat, int>

  /** An ideal SHA-256: two files have the same digest exactly when they are equal. */
  datatype Digest = Sha256(pages: Pages)

  /** One committed WAL frame: the new content of one page. */
  datatype Frame = Frame(page: nat, data: int)

  /** The archive a restore was approved for, the database it left, and the snapshot it made before. */
  datatype Receipt = Receipt(approved: Backup.ArchiveDigest, restored: Digest, preRestore: Option<Name>)

  datatype File =
      // "dirty" pages were written since the last fsync; a crash may tear them.
    | Database(pages: Pages, dirty: set<nat>)
      // "images" are the committed frame sequences a crash may leave readable.
    | Wal(frames: seq<Frame>, images: set<seq<Frame>>)
    | ReceiptFile(receipt: Receipt, synced: bool)

  datatype FileImage =
    | DatabaseImage(pages: Pages) | WalImage(frames: seq<Frame>) | ReceiptImage(receipt: Receipt) | Torn

  datatype Name =
    | LiveDb | LiveWal | LiveShm | Staged
    | SnapshotTmp | Snapshot(id: nat) | ReceiptTmp | ReceiptName(id: nat)

  datatype Directory = DataDir | BackupDir | TempDir

  function DirectoryOf(n: Name): Directory {
    match n
    case LiveDb | LiveWal | LiveShm => DataDir
    case Staged | SnapshotTmp => TempDir
    case Snapshot(_) | ReceiptTmp | ReceiptName(_) => BackupDir
  }

  /** "survivors" is every target the entry may have after a crash. */
  datatype Entry = Entry(now: Option<nat>, survivors: set<Option<nat>>)

  const ABSENT := Entry(None, {None})

  datatype Disk = Disk(files: map<nat, File>, entries: map<Name, Entry>) {

    function Get(n: Name): Entry {
      if n in entries then entries[n] else ABSENT
    }

    function Link(n: Name, target: Option<nat>): Disk {
      this.(entries := entries[n := Entry(target, Get(n).survivors + {target})])
    }

    /** A crash-atomic rename: the target entry changes in one step. */
    function Rename(source: Name, target: Name): Disk {
      Link(target, Get(source).now).Link(source, None)
    }

    function SyncDirectory(dir: Directory): Disk {
      this.(entries := map n | n in entries ::
              if DirectoryOf(n) == dir then Entry(entries[n].now, {entries[n].now}) else entries[n])
    }

    function Write(id: nat, f: File): Disk {
      this.(files := files[id := f])
    }

    function SyncFile(id: nat): Disk
      requires id in files
    {
      Write(id, match files[id]
                case Database(pages, _) => Database(pages, {})
                case Wal(frames, _) => Wal(frames, {frames})
                case ReceiptFile(r, _) => ReceiptFile(r, true))
    }
  }

  ghost function Bound(s: set<nat>): (b: nat)
    ensures forall x :: x in s ==> x < b
  {
    if s == {} then 0 else
    var x :| x in s;
    var rest := Bound(s - {x});
    assert forall y :: y in s ==> y == x || y in s - {x};
    if x < rest then rest else x + 1
  }

  lemma FreshExists(s: set<nat>)
    ensures exists id: nat :: id !in s
  {
    assert Bound(s) !in s;
  }

  // ---------------------------------------------------------------- logical content

  /** What SQLite reads: the main pages with the committed frames laid over them. */
  function Overlay(pages: Pages, frames: seq<Frame>): Pages {
    if frames == [] then pages
    else Overlay(pages, frames[..|frames| - 1])[frames[|frames| - 1].page := frames[|frames| - 1].data]
  }

  function Touched(frames: seq<Frame>): set<nat> {
    set i | 0 <= i < |frames| :: frames[i].page
  }

  ghost predicate AgreeOff(a: Pages, b: Pages, except: set<nat>) {
    forall p :: p !in except ==> (p in a <==> p in b) && (p in a ==> a[p] == b[p])
  }

  lemma {:induction false} OverlayAgree(a: Pages, b: Pages, except: set<nat>, frames: seq<Frame>)
    requires AgreeOff(a, b, except)
    ensures AgreeOff(Overlay(a, frames), Overlay(b, frames), except - Touched(frames))
  {
    if frames != [] {
      var init := frames[..|frames| - 1];
      OverlayAgree(a, b, except, init);
      assert Touched(frames) == Touched(init) + {frames[|frames| - 1].page} by {
        assert frames == init + [frames[|frames| - 1]];
        forall p | p in Touched(frames) ensures p in Touched(init) + {frames[|frames| - 1].page} {
          var i :| 0 <= i < |frames| && frames[i].page == p;
          assert i < |init| ==> init[i] == frames[i];
        }
        forall p | p in Touched(init) ensures p in Touched(frames) {
          var i :| 0 <= i < |init| && init[i].page == p;
          assert frames[i] == init[i];
        }
        assert frames[|frames| - 1].page in Touched(frames);
      }
    }
  }

  /** Pages the WAL will rewrite anyway do not matter: tearing them is healed. */
  lemma OverlayHeals(a: Pages, b: Pages, frames: seq<Frame>)
    requires AgreeOff(a, b, Touched(frames))
    ensures Overlay(a, frames) == Overlay(b, frames)
  {
    OverlayAgree(a, b, Touched(frames), frames);
    assert Touched(frames) - Touched(frames) == {};
  }

  lemma {:induction false} OverlayOff(a: Pages, frames: seq<Frame>)
    ensures AgreeOff(a, Overlay(a, frames), Touched(frames))
  {
    if frames != [] {
      var init := frames[..|frames| - 1];
      OverlayOff(a, init);
      assert forall i :: 0 <= i < |init| ==> init[i].page == frames[i].page && frames[i].page in Touched(frames);
      assert frames[|frames| - 1].page in Touched(frames);
    }
  }

  lemma TouchedPrefix(frames: seq<Frame>, i: nat)
    requires i <= |frames|
    ensures Touched(frames[..i]) <= Touched(frames)
  {
    forall p | p in Touched(frames[..i]) ensures p in Touched(frames) {
      var k :| 0 <= k < i && frames[..i][k].page == p;
      assert frames[k].page == p;
    }
  }

  // ---------------------------------------------------------------- crash and recovery

  datatype Image = Image(names: map<Name, nat>, files: map<nat, FileImage>)

  function Lookup(names: map<Name, nat>, n: Name): Option<nat> {
    if n in names then Some(names[n]) else None
  }

  ghost predicate FileSurvives(f: File, im: FileImage) {
    match f
    case Database(pages, dirty) => im.DatabaseImage? && AgreeOff(pages, im.pages, dirty)
    case Wal(_, images) => im.WalImage? && im.frames in images
    case ReceiptFile(r, synced) => synced ==> im == ReceiptImage(r)
  }

  ghost predicate NameSurvives(d: Disk, im: Image, n: Name) {
    Lookup(im.names, n) in d.Get(n).survivors
  }

  /** "im" is one of the states a crash may leave when the running system was in "d". */
  ghost predicate MayCrashTo(d: Disk, im: Image) {
    && (forall n :: NameSurvives(d, im, n))
    && (forall id :: id in d.files ==> id in im.files && FileSurvives(d.files[id], im.files[id]))
  }

  /** What SQLite recovers from a database file and the sidecar beside it. */
  function RecoveredFrom(im: Image, db: Name, wal: Name): Option<Pages> {
    match Lookup(im.names, db)
    case None => None
    case Some(id) =>
      if id in im.files && im.files[id].DatabaseImage? then
        Some(match Lookup(im.names, wal)
             case None => im.files[id].pages
             case Some(w) => if w in im.files && im.files[w].WalImage?
                             then Overlay(im.files[id].pages, im.files[w].frames)
                             else im.files[id].pages)
      else None
  }

  function Recovered(im: Image): Option<Pages> { RecoveredFrom(im, LiveDb, LiveWal) }

  ghost predicate HasSnapshot(im: Image, n: Name, content: Pages) {
    n in im.names && im.names[n] in im.files && im.files[im.names[n]] == DatabaseImage(content)
  }
}
