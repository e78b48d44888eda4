/** What the receiver reads and writes, and the outside world it acts on.

    The destination disk is represented by the log of effects performed on it so
    far; every answer the file system gives (a save result, a delete tally, a
    publication verdict) is an arbitrary function of that log, so a statement
    about "every World" is a statement about every file system behaviour. */
module Protocol {

  const MAX_MANIFEST_ENTRIES: nat := 1024 * 1024

  datatype Option<+T> = None | Some(value: T)

  /** One received entry, with the fields the receiver's bookkeeping looks at. */
  datatype File = File(
    path: string, size: nat,
    isDir: bool, isSymlink: bool, isSpecial: bool,
    sibling: bool, basisSourced: bool, skip: bool, hasMetadata: bool,
    matched: nat, literal: nat)

  /** The four sections of a delete manifest. */
  datatype Manifest = Manifest(
    keeps: seq<string>, protect: seq<string>, missing: seq<string>, dirs: seq<string>)

  datatype SaveResult = SaveError | Written | Skipped | SaveFailed

  datatype Stats = Stats(
    matched: nat, deleted: nat, literal: nat,
    createdReg: nat, createdDir: nat, createdLink: nat, createdSpecial: nat)

  datatype Status = StatusOk | StatusError | StatusNext | StatusKeepalive | StatusDeleteLimit

  /** Frames the receiver sends to the client. */
  datatype Reply = Code(status: Status) | StatsFrame(record: Stats, paths: seq<string>) | ErrorDetail

  datatype Config = Config(
    dryRun: bool, saveToDisk: bool, useDelete: bool, deleteMissing: bool, deleteBefore: bool,
    removeSource: bool, reportStats: bool, reportDeletes: bool, delayUpdates: bool,
    captureDirs: bool, idleLimit: int, wallLimit: int)

  datatype Effect = Store(file: File) | Delete(manifest: Manifest) | Publish | StampDirs(dirs: seq<File>)

  type Disk = seq<Effect>

  datatype Saved = Saved(result: SaveResult, created: bool, createdDirs: nat)
  datatype CommitResult = CommitOk | CommitLimit | CommitError
  datatype Commit = Commit(result: CommitResult, deleted: nat, paths: seq<string>)
  datatype CheckReply = CheckSkip | CheckWould | CheckFile(file: File) | CheckBad

  datatype World = World(
    save: (Disk, File) -> Saved,
    commit: (Disk, Manifest) -> Commit,
    would: (Disk, Manifest) -> seq<string>,
    publish: Disk -> bool,
    check: (Disk, int) -> CheckReply,
    batch: (Disk, int) -> bool)

  /** One frame of the client's stream.  `Data` stands for every frame that
      carries entries to store (a whole file, a chunk, a directory, a hard link,
      a symlink, a special node, a list of directory times); `complete` is false
      when decoding breaks off after those entries. */
  datatype Frame =
    | Data(dirTimes: bool, files: seq<File>, complete: bool)
    | Keepalive(echoed: bool)
    | Abort
    | Check(request: int)
    | CheckBatch(batch: int)
    | ManifestFrame(manifest: Manifest)
    | BadManifest
    | DeletePlan
    | Finished
    | UnknownStatus

  /** A frame together with the monotonic clock when its status was read. */
  datatype Timed = Timed(frame: Frame, now: int)

  function Cap(paths: seq<string>): (r: seq<string>)
    ensures |r| <= MAX_MANIFEST_ENTRIES && r <= paths
    ensures |paths| <= MAX_MANIFEST_ENTRIES ==> r == paths
  {
    if |paths| > MAX_MANIFEST_ENTRIES then paths[..MAX_MANIFEST_ENTRIES] else paths
  }
}
