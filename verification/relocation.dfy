/** The storage-template relocation engine: it moves an asset's original file
    to the path its owner's storage template prescribes. The file moves only
    after a journal record of the move exists. A cross-device rename falls back
    to copy, verify, delete. The new path is committed only once the file is
    known to be in place.

    The engine is modelled as pure functions that append effects to a `Run`.
    A run carries the world it started from, the world it has reached and the
    log of effects between them. `Run.Valid` says that replaying the log on the
    start world gives the current world, so every state reached after any
    prefix of the log is a state the system can crash in. The filesystem, the
    database and the template renderer are not modelled: they are a map, an
    oracle `Env` and an uninterpreted render function. */
module Relocation {
  import opened Common
  import opened ConflictResolver

  type AssetId = string
  type UserId = string

  /** The kinds of file an asset owns, each with its own journal record. */
  datatype AssetPathType = Original | JpegThumbnail | WebpThumbnail | EncodedVideo

  /** What `stat` and the content hash report about a file. */
  datatype FileInfo = FileInfo(size: nat, hash: string, atime: int, mtime: int)

  datatype Asset = Asset(
    id: AssetId,
    ownerId: UserId,
    originalPath: Path,
    originalFileName: string,
    checksum: string,
    fileSizeInByte: nat,
    takenAt: int,
    isReadOnly: bool,
    livePhotoVideoId: Option<AssetId>)

  datatype User = User(id: UserId, storageLabel: Option<string>)

  datatype JournalKey = JournalKey(entityId: AssetId, pathType: AssetPathType)

  /** A journal record: the move from `oldPath` to `newPath` was intended. */
  datatype MoveRecord = MoveRecord(oldPath: Path, newPath: Path)

  datatype World = World(
    fs: map<Path, FileInfo>,
    assets: map<AssetId, Asset>,
    journal: map<JournalKey, MoveRecord>,
    users: map<UserId, User>)

  /** Every asset is stored under its own id. */
  predicate Keyed(w: World) {
    forall id :: id in w.assets ==> w.assets[id].id == id
  }

  /** The file at `p` has the asset's recorded size and checksum. */
  predicate Holds(w: World, p: Path, a: Asset) {
    p in w.fs && w.fs[p].size == a.fileSizeInByte && w.fs[p].hash == a.checksum
  }

  /** The journal holds a move of `a` that has not been committed: a record
      whose new path is not the asset's path. A committed move leaves its
      record behind as history, with the asset's path as its new path. */
  predicate Unfinished(w: World, a: Asset) {
    var key := JournalKey(a.id, Original);
    key in w.journal && w.journal[key].newPath != a.originalPath
  }

  /** The file the next move of `a` starts from: for an unfinished move the
      record's old path when that file exists and its new path otherwise, and
      the asset's own path when no move is unfinished. */
  function SourceOf(w: World, a: Asset): Path {
    if Unfinished(w, a) then
      var m := w.journal[JournalKey(a.id, Original)];
      if m.oldPath in w.fs then m.oldPath else m.newPath
    else a.originalPath
  }

  /** How a `rename` call ends: success, the cross-device error `EXDEV`, or any
      other error. */
  datatype RenameOutcome = Renamed | CrossDevice | RenameFailed

  /** What a template renders from: everything about the asset except its path. */
  datatype RenderContext = RenderContext(assetId: AssetId, takenAt: int, filename: string, extension: string)

  /** The parts of the environment the engine does not control. `render` is the
      compiled storage template, `rename` decides how a rename of an existing
      file ends, and `copy` gives the file that lands at the destination of a
      copy (a short or corrupted copy lands a file with the wrong size or hash). */
  datatype Env = Env(
    render: RenderContext -> string,
    rename: (Path, Path) -> RenameOutcome,
    copy: (Path, Path) -> FileInfo)

  datatype TemplateConfig = TemplateConfig(enabled: bool)

  /** One call the engine makes to the filesystem, the database or the hasher. */
  datatype Effect =
    | LoadAsset(id: AssetId)
    | CheckExists(path: Path)
    | Stat(path: Path)
    | HashFile(path: Path)
    | JournalCreate(key: JournalKey, record: MoveRecord)
    | JournalUpdate(key: JournalKey, record: MoveRecord)
    | Rename(from: Path, to: Path, outcome: RenameOutcome)
    | CopyFile(from: Path, to: Path, landed: FileInfo)
    | SetTimes(path: Path, atime: int, mtime: int)
    | Unlink(path: Path)
    | UpdateAssetPath(id: AssetId, path: Path)
  {
    /** The effect changes the filesystem. */
    predicate TouchesFiles() {
      (Rename? && outcome == Renamed) || CopyFile? || SetTimes? || Unlink?
    }
  }

  /** The state after one effect. */
  function Apply(w: World, e: Effect): World {
    match e
    case LoadAsset(_) => w
    case CheckExists(_) => w
    case Stat(_) => w
    case HashFile(_) => w
    case JournalCreate(key, m) => w.(journal := w.journal[key := m])
    case JournalUpdate(key, m) => w.(journal := w.journal[key := m])
    case Rename(from, to, outcome) =>
      if outcome == Renamed && from in w.fs then w.(fs := (w.fs - {from})[to := w.fs[from]]) else w
    case CopyFile(_, to, landed) => w.(fs := w.fs[to := landed])
    case SetTimes(p, atime, mtime) =>
      if p in w.fs then w.(fs := w.fs[p := w.fs[p].(atime := atime, mtime := mtime)]) else w
    case Unlink(p) => w.(fs := w.fs - {p})
    case UpdateAssetPath(id, p) =>
      if id in w.assets then w.(assets := w.assets[id := w.assets[id].(originalPath := p)]) else w
  }

  /** The state after the first `n` effects of a log, one after another. */
  function Replay(w: World, log: seq<Effect>, n: nat): World
    requires n <= |log|
  {
    if n == 0 then w else Apply(Replay(w, log, n - 1), log[n - 1])
  }

  /** Effects after the first `n` do not change the state the first `n` reach. */
  lemma {:induction false} ReplayPrefix(w: World, log: seq<Effect>, more: seq<Effect>, n: nat)
    requires n <= |log|
    ensures Replay(w, log + more, n) == Replay(w, log, n)
  {
    if n > 0 {
      ReplayPrefix(w, log, more, n - 1);
    }
  }

  datatype Run = Run(start: World, w: World, log: seq<Effect>) {
    predicate Valid() {
      w == Replay(start, log, |log|)
    }

    /** Performs one more effect. */
    function Then(e: Effect): (r: Run)
      requires Valid()
      ensures r.Valid() && r.start == start && r.w == Apply(w, e) && r.log == log + [e]
    {
      ReplayPrefix(start, log, [e], |log|);
      Run(start, Apply(w, e), log + [e])
    }
  }

  /** A proper prefix of a prefix is a proper prefix. */
  lemma PrefixTrans(a: seq<Effect>, b: seq<Effect>, c: seq<Effect>)
    requires a < b && b <= c
    ensures a < c
  {
    assert c[..|b|] == b;
    assert c[..|a|] == b[..|a|];
  }

  /** One more effect extends every prefix of the log to a proper prefix. */
  lemma ThenGrows(st: Run, e: Effect, base: seq<Effect>)
    requires st.Valid() && base <= st.log
    ensures base < st.Then(e).log
  {
    assert st.Then(e).log[..|base|] == st.log[..|base|];
  }

  /** A run that extends another from the same start passes through the
      state the other one reached. */
  lemma PassesThrough(st: Run, r: Run)
    requires st.Valid() && r.Valid() && r.start == st.start && st.log <= r.log
    ensures Replay(r.start, r.log, |st.log|) == st.w
  {
    assert r.log == st.log + r.log[|st.log|..];
    ReplayPrefix(st.start, st.log, r.log[|st.log|..], |st.log|);
  }

  function Begin(w: World): (r: Run)
    ensures r.Valid() && r.start == w && r.w == w && r.log == []
  {
    Run(w, w, [])
  }

  /** `w1` differs from `w0` at most as a move of asset `id` from `source` to
      `target` may change it: the users stay, the journal changes only under
      the asset's own key, the asset records change only by this asset taking
      `target` as its path, no file other than `target` is created or
      rewritten, and no file other than `source` and `target` disappears. */
  ghost predicate MoveFrame(w0: World, w1: World, id: AssetId, source: Path, target: Path) {
    && w1.users == w0.users
    && (forall k :: k != JournalKey(id, Original) ==>
          (k in w1.journal <==> k in w0.journal) && (k in w0.journal ==> w1.journal[k] == w0.journal[k]))
    && (w1.assets == w0.assets || w1.assets == Apply(w0, UpdateAssetPath(id, target)).assets)
    && (forall p :: p in w1.fs && p != target ==> p in w0.fs && w1.fs[p] == w0.fs[p])
    && (forall p :: p in w0.fs && p != source && p != target ==> p in w1.fs)
  }

  /** The extension of a path without its dot, `""` when the last segment has none. */
  function Extension(p: Path): (ext: string)
    ensures '.' !in ext && '/' !in ext
    ensures |ext| > 0 ==> EndsWith(p, "." + ext)
  {
    match LastIndexOf(p, '.')
    case None => ""
    case Some(i) => if '/' in p[i + 1..] then "" else p[i + 1..]
  }

  /** A path has no extension exactly when it ends in a dot or every dot in it
      is followed by a later `/`, that is, its last segment has no dot. */
  lemma ExtensionEmpty(p: Path)
    ensures |Extension(p)| == 0 <==>
      EndsWith(p, ".") || forall i :: 0 <= i < |p| && p[i] == '.' ==> '/' in p[i + 1..]
  {
    match LastIndexOf(p, '.')
    case None =>
    case Some(i) =>
      if '/' in p[i + 1..] {
        var k :| 0 <= k < |p[i + 1..]| && p[i + 1..][k] == '/';
        forall j | 0 <= j < |p| && p[j] == '.'
          ensures '/' in p[j + 1..]
        {
          assert p[j + 1..][i - j + k] == '/';
        }
      } else if i < |p| - 1 {
        assert p[|p| - 1] in p[i + 1..];
        assert p[|p| - 1..] != ".";
      }
  }

  const MediaLocation: Path := "upload"

  /** The owner's folder: the storage label when the owner has a non-empty one,
      the owner id otherwise. */
  function LibraryFolder(ownerId: UserId, storageLabel: Option<string>): (folder: Path)
    ensures storageLabel.Some? && |storageLabel.value| > 0 ==> folder == "upload/library/" + storageLabel.value
    ensures storageLabel.None? || |storageLabel.value| == 0 ==> folder == "upload/library/" + ownerId
  {
    MediaLocation + "/library/" + (if storageLabel.Some? && |storageLabel.value| > 0 then storageLabel.value else ownerId)
  }

  function StorageLabel(w: World, ownerId: UserId): Option<string> {
    if ownerId in w.users then w.users[ownerId].storageLabel else None
  }

  /** The rendered destination without its extension. */
  function TemplateStem(render: RenderContext -> string, a: Asset, storageLabel: Option<string>, filename: string): Path {
    LibraryFolder(a.ownerId, storageLabel) + "/" + render(RenderContext(a.id, a.takenAt, filename, Extension(a.originalPath)))
  }

  /** The asset already sits at its destination, or at a `+N` variant of it. */
  predicate AlreadyPlaced(path: Path, stem: Path, ext: string) {
    path == Candidate(stem, ext, 0) || IsDuplicateAnnotated(path, stem, ext)
  }

  /** Where an asset belongs, and the names probed to find it. */
  datatype Destination = Destination(path: Path, probed: seq<Path>)

  /** The destination of an asset: where it is, when it already sits at the
      rendered path or a `+N` variant of it; otherwise the first of
      `stem.ext`, `stem+1.ext`, `stem+2.ext`, ... that no file occupies. */
  function TemplatePath(files: set<Path>, render: RenderContext -> string, a: Asset, storageLabel: Option<string>, filename: string): (d: Destination)
    ensures var stem := TemplateStem(render, a, storageLabel, filename);
      var ext := Extension(a.originalPath);
      if AlreadyPlaced(a.originalPath, stem, ext) then d.path == a.originalPath && d.probed == []
      else
        && |d.probed| > 0
        && d.path == d.probed[|d.probed| - 1]
        && d.path !in files
        && StartsWith(d.path, LibraryFolder(a.ownerId, storageLabel) + "/")
        && (forall i :: 0 <= i < |d.probed| ==> d.probed[i] == Candidate(stem, ext, i))
        && (forall i :: 0 <= i < |d.probed| - 1 ==> d.probed[i] in files)
  {
    var stem := TemplateStem(render, a, storageLabel, filename);
    var ext := Extension(a.originalPath);
    if AlreadyPlaced(a.originalPath, stem, ext) then Destination(a.originalPath, [])
    else
      var k := FreeSuffix(files, stem, ext);
      var d := Destination(Candidate(stem, ext, k), Probes(stem, ext, k));
      var folder := LibraryFolder(a.ownerId, storageLabel) + "/";
      PrefixOfJoin(folder, render(RenderContext(a.id, a.takenAt, filename, ext)));
      CandidateExtends(stem, ext, k);
      StartsWithTrans(d.path, stem, folder);
      d
  }

  /** Checks, in order, whether each of `paths` exists. */
  function CheckAll(st: Run, paths: seq<Path>): (r: Run)
    requires st.Valid()
    ensures r.Valid() && r.start == st.start && r.w == st.w
    ensures |r.log| == |st.log| + |paths| && r.log[..|st.log|] == st.log
    ensures forall i :: 0 <= i < |paths| ==> r.log[|st.log| + i] == CheckExists(paths[i])
    decreases |paths|
  {
    if |paths| == 0 then st
    else
      CheckAll(st.Then(CheckExists(paths[0])), paths[1..])
  }

  /** Moves the file at `source` to `target` once the journal records the move:
      a rename, or on `EXDEV` the copy fallback. The asset record is updated
      only when the file is in place. Renaming a missing file fails; renaming a
      file onto itself succeeds and changes nothing. */
  function Relocate(st: Run, env: Env, a: Asset, source: Path, target: Path): (r: Run)
    requires st.Valid()
    ensures r.Valid() && r.start == st.start && st.log < r.log
  {
    var outcome :=
      if source !in st.w.fs then RenameFailed
      else if source == target then Renamed
      else env.rename(source, target);
    var renamed := st.Then(Rename(source, target, outcome));
    var r :=
      match outcome
      case Renamed => renamed.Then(UpdateAssetPath(a.id, target))
      case RenameFailed => renamed
      case CrossDevice => CopyFallback(renamed, env, a, source, target);
    PrefixTrans(st.log, renamed.log, r.log);
    r
  }

  /** The fallback after `EXDEV`: copy, check the copy's size and then its hash
      against the asset, and only then carry the times over, delete the source
      and commit. A copy that fails a check is deleted. */
  function CopyFallback(st: Run, env: Env, a: Asset, source: Path, target: Path): (r: Run)
    requires st.Valid() && source in st.w.fs && source != target
    ensures r.Valid() && r.start == st.start && st.log < r.log
  {
    var landed := env.copy(source, target);
    var copied := st.Then(CopyFile(source, target, landed));
    ThenGrows(st, CopyFile(source, target, landed), st.log);
    var sized := copied.Then(Stat(target));
    ThenGrows(copied, Stat(target), st.log);
    if landed.size != a.fileSizeInByte then
      ThenGrows(sized, Unlink(target), st.log);
      sized.Then(Unlink(target))
    else
      var hashed := sized.Then(HashFile(target));
      ThenGrows(sized, HashFile(target), st.log);
      if landed.hash != a.checksum then
        ThenGrows(hashed, Unlink(target), st.log);
        hashed.Then(Unlink(target))
      else
        var original := st.w.fs[source];
        var statted := hashed.Then(Stat(source));
        ThenGrows(hashed, Stat(source), st.log);
        var timed := statted.Then(SetTimes(target, original.atime, original.mtime));
        ThenGrows(statted, SetTimes(target, original.atime, original.mtime), st.log);
        var unlinked := timed.Then(Unlink(source));
        ThenGrows(timed, Unlink(source), st.log);
        ThenGrows(unlinked, UpdateAssetPath(a.id, target), st.log);
        unlinked.Then(UpdateAssetPath(a.id, target))
  }

  /** Moves the original file of `a` to `target`, recording the move in the
      journal first. An unfinished move is taken up where it stopped. A record
      of a committed move is history: it is overwritten and the move starts
      from the asset's own path. */
  function MoveFile(st: Run, env: Env, a: Asset, target: Path): (r: Run)
    requires st.Valid()
    ensures r.Valid() && r.start == st.start && st.log <= r.log
    ensures a.originalPath == target ==> r == st
  {
    var key := JournalKey(a.id, Original);
    if a.originalPath == target then st
    else if key !in st.w.journal then
      Relocate(st.Then(JournalCreate(key, MoveRecord(a.originalPath, target))), env, a, a.originalPath, target)
    else if !Unfinished(st.w, a) then
      Relocate(st.Then(JournalUpdate(key, MoveRecord(a.originalPath, target))), env, a, a.originalPath, target)
    else ResumeMove(st, env, a, target)
  }

  /** Takes up the move an earlier run recorded. It resumes from the record's
      old path if the file is still there. Otherwise it resumes from the
      record's new path, but only when the file there has the asset's size and
      checksum. When neither holds it does nothing more. */
  function ResumeMove(st: Run, env: Env, a: Asset, target: Path): (r: Run)
    requires st.Valid() && JournalKey(a.id, Original) in st.w.journal
    ensures r.Valid() && r.start == st.start && st.log < r.log
  {
    var key := JournalKey(a.id, Original);
    var m := st.w.journal[key];
    var checked := st.Then(CheckExists(m.oldPath)).Then(CheckExists(m.newPath));
    if m.oldPath in st.w.fs then
      Relocate(checked.Then(JournalUpdate(key, MoveRecord(m.oldPath, target))), env, a, m.oldPath, target)
    else if m.newPath !in st.w.fs then checked
    else
      var found := st.w.fs[m.newPath];
      var sized := checked.Then(Stat(m.newPath));
      if found.size != a.fileSizeInByte then sized
      else
        var hashed := sized.Then(HashFile(m.newPath));
        if found.hash != a.checksum then hashed
        else Relocate(hashed.Then(JournalUpdate(key, MoveRecord(m.newPath, target))), env, a, m.newPath, target)
  }

  /** Moves an asset to its template destination; a read-only asset stays put. */
  function MoveAsset(st: Run, env: Env, a: Asset, storageLabel: Option<string>, filename: string): (r: Run)
    requires st.Valid()
    ensures r.Valid() && r.start == st.start && st.log <= r.log
    ensures a.isReadOnly ==> r == st
  {
    if a.isReadOnly then st
    else
      var d := TemplatePath(st.w.fs.Keys, env.render, a, storageLabel, filename);
      MoveFile(CheckAll(st, d.probed), env, a, d.path)
  }

  datatype JobRun = JobRun(status: JobStatus, run: Run)

  /** The single-asset job. The asset is moved, then its live-photo motion part,
      which is rendered with the still's file name. A failed move still ends in
      `Success`: it shows only as an unchanged asset path. */
  function HandleMigrationSingle(w: World, config: TemplateConfig, env: Env, id: AssetId): (r: JobRun)
    ensures r.run.Valid() && r.run.start == w
    ensures r.status == Skipped <==> !config.enabled
    ensures r.status == Skipped ==> r.run.log == []
    ensures r.status == Failed ==> id !in w.assets || w.assets[id].livePhotoVideoId.Some?
  {
    var st := Begin(w);
    if !config.enabled then JobRun(Skipped, st)
    else
      var loaded := st.Then(LoadAsset(id));
      if id !in w.assets then JobRun(Failed, loaded)
      else
        var a := w.assets[id];
        var storageLabel := StorageLabel(w, a.ownerId);
        var moved := MoveAsset(loaded, env, a, storageLabel, a.originalFileName);
        match a.livePhotoVideoId
        case None => JobRun(Success, moved)
        case Some(motionId) =>
          var loadedMotion := moved.Then(LoadAsset(motionId));
          if motionId !in moved.w.assets then JobRun(Failed, loadedMotion)
          else JobRun(Success, MoveAsset(loadedMotion, env, moved.w.assets[motionId], storageLabel, a.originalFileName))
  }

  /** Moves each listed asset in turn; ids with no asset are passed over. */
  function MigrateEach(st: Run, env: Env, ids: seq<AssetId>): (r: Run)
    requires st.Valid()
    ensures r.Valid() && r.start == st.start && st.log <= r.log
    decreases |ids|
  {
    if |ids| == 0 then st
    else
      var next :=
        if ids[0] in st.w.assets then
          var a := st.w.assets[ids[0]];
          MoveAsset(st, env, a, StorageLabel(st.w, a.ownerId), a.originalFileName)
        else st;
      MigrateEach(next, env, ids[1..])
  }

  /** The bulk job over the listed assets. */
  function HandleMigration(w: World, config: TemplateConfig, env: Env, ids: seq<AssetId>): (r: JobRun)
    ensures r.run.Valid() && r.run.start == w
    ensures r.status == (if config.enabled then Success else Skipped)
    ensures !config.enabled ==> r.run.log == []
  {
    if !config.enabled then JobRun(Skipped, Begin(w))
    else JobRun(Success, MigrateEach(Begin(w), env, ids))
  }
}
