/** The move of an asset's file as the repository writes it, next to the
    corrected `Relocation.MoveFile`. As written, any journal record under the
    asset's key is resumed, including the record of a move committed long
    ago, which the engine keeps as history. */
module RelocationFindings {
  import opened Common
  import opened ConflictResolver
  import opened Relocation
  import opened RelocationFrame
  import opened RelocationSafety

  /** `MoveFile` as written: a record under the asset's key is always
      resumed, whether or not its move was committed. */
  function MoveFileAsWritten(st: Run, env: Env, a: Asset, target: Path): (r: Run)
    requires st.Valid()
    ensures r.Valid() && r.start == st.start && st.log <= r.log
    ensures a.originalPath == target ==> r == st
  {
    var key := JournalKey(a.id, Original);
    if a.originalPath == target then st
    else if key !in st.w.journal then
      Relocate(st.Then(JournalCreate(key, MoveRecord(a.originalPath, target))), env, a, a.originalPath, target)
    else ResumeMove(st, env, a, target)
  }

  /** The two differ only for an asset whose record is history. */
  lemma AsWrittenDiffersOnlyOnHistory(st: Run, env: Env, a: Asset, target: Path)
    requires st.Valid()
    requires JournalKey(a.id, Original) !in st.w.journal || Unfinished(st.w, a)
    ensures MoveFileAsWritten(st, env, a, target) == MoveFile(st, env, a, target)
  {
  }

  /** As written, a move of an asset with any record resumes from the
      record's old path whenever a file is there. */
  lemma AsWrittenResumesOldPath(st: Run, env: Env, a: Asset, target: Path)
    requires st.Valid() && a.originalPath != target && JournalKey(a.id, Original) in st.w.journal
    requires var m := st.w.journal[JournalKey(a.id, Original)];
      m.oldPath in st.w.fs && m.oldPath != target && env.rename(m.oldPath, target) == Renamed
    ensures var r := MoveFileAsWritten(st, env, a, target);
      var m := st.w.journal[JournalKey(a.id, Original)];
      && r.w.fs == (st.w.fs - {m.oldPath})[target := st.w.fs[m.oldPath]]
      && r.w.assets == Apply(st.w, UpdateAssetPath(a.id, target)).assets
      && r.w.journal == st.w.journal[JournalKey(a.id, Original) := MoveRecord(m.oldPath, target)]
  {
    var key := JournalKey(a.id, Original);
    var m := st.w.journal[key];
    var checked := st.Then(CheckExists(m.oldPath)).Then(CheckExists(m.newPath));
    var logged := checked.Then(JournalUpdate(key, MoveRecord(m.oldPath, target)));
    assert logged.w.fs == st.w.fs && logged.w.assets == st.w.assets;
  }

  /** The situation the as-written move gets wrong: asset `x` was moved away
      from a path and its committed record stays behind as history; asset `y`
      has since been placed at that path. Both are settled. */
  ghost predicate HistoryCase(w: World, x: Asset, y: Asset) {
    var key := JournalKey(x.id, Original);
    && x.id != y.id && x.id in w.assets && w.assets[x.id] == x && y.id in w.assets && w.assets[y.id] == y
    && Settled(w, x.id) && Settled(w, y.id) && x.originalPath != y.originalPath
    && key in w.journal && w.journal[key].oldPath == y.originalPath
  }

  /** As written, moving `x` again resumes its committed record from the old
      path, which now holds `y`'s file: `y`'s file is renamed away, `y` is
      left pointing at nothing, and `x` takes `y`'s content as its own. */
  lemma HistoryRecordTakesOtherFile(st: Run, env: Env, x: Asset, y: Asset, target: Path)
    requires st.Valid() && HistoryCase(st.w, x, y)
    requires target !in st.w.fs && env.rename(y.originalPath, target) == Renamed
    ensures var r := MoveFileAsWritten(st, env, x, target);
      && x.id in r.w.assets && r.w.assets[x.id].originalPath == target
      && r.w.fs == (st.w.fs - {y.originalPath})[target := st.w.fs[y.originalPath]]
      && !Recoverable(r.w, y.id)
  {
    var r := MoveFileAsWritten(st, env, x, target);
    AsWrittenResumesOldPath(st, env, x, target);
    ResumedHistoryLosesFile(st.w, r.w, x, y, target);
  }

  /** The world a resumed history record leaves behind: `y`'s path is empty
      while `y` still points at it. */
  lemma ResumedHistoryLosesFile(w0: World, w1: World, x: Asset, y: Asset, target: Path)
    requires HistoryCase(w0, x, y) && target !in w0.fs
    requires w1.fs == (w0.fs - {y.originalPath})[target := w0.fs[y.originalPath]]
    requires w1.assets == Apply(w0, UpdateAssetPath(x.id, target)).assets
    requires w1.journal == w0.journal[JournalKey(x.id, Original) := MoveRecord(y.originalPath, target)]
    ensures x.id in w1.assets && w1.assets[x.id].originalPath == target
    ensures !Recoverable(w1, y.id)
  {
    assert w1.assets[y.id] == y;
    assert JournalKey(y.id, Original) != JournalKey(x.id, Original);
    assert SourceOf(w1, y) == y.originalPath;
  }

  /** Corrected, the same move starts from `x`'s own path, and `y` keeps its
      file and stays settled throughout. */
  lemma CorrectedMoveKeepsOtherFile(st: Run, env: Env, x: Asset, y: Asset, target: Path)
    requires st.Valid() && HistoryCase(st.w, x, y)
    requires target !in st.w.fs
    ensures var r := MoveFile(st, env, x, target);
      && y.originalPath in r.w.fs && r.w.fs[y.originalPath] == st.w.fs[y.originalPath]
      && SafeFrom(r, |st.log|, y.id)
      && Settled(r.w, y.id)
  {
    var r := MoveFile(st, env, x, target);
    var source := SourceOf(st.w, x);
    MoveFilePermitted(st, env, x, target, |st.log|);
    PassesThrough(st, r);
    forall k | |st.log| <= k <= |r.log|
      ensures Settled(Replay(r.start, r.log, k), y.id)
      ensures y.originalPath in Replay(r.start, r.log, k).fs
      ensures Replay(r.start, r.log, k).fs[y.originalPath] == st.w.fs[y.originalPath]
    {
      PermittedFramed(r, |st.log|, k, x.id, source, target);
      FrameKeepsSettled(st.w, Replay(r.start, r.log, k), x.id, source, target, y.id);
    }
    assert Replay(r.start, r.log, |r.log|) == r.w;
  }

  const OldPath: Path := "a.jpg"
  const MovedPath: Path := "b.jpg"
  const NextPath: Path := "c.jpg"

  /** Asset `x`, moved earlier from `OldPath` to `MovedPath`. */
  function AssetX(): Asset {
    Asset("x", "u", MovedPath, "x.jpg", "hash-x", 10, 0, false, None)
  }

  /** Asset `y`, which later landed at the path `x` left free. */
  function AssetY(): Asset {
    Asset("y", "u", OldPath, "y.jpg", "hash-y", 20, 0, false, None)
  }

  /** Both assets settled on disk; `x`'s committed move is still on record. */
  function HistoryWorld(): World {
    World(
      map[OldPath := FileInfo(20, "hash-y", 0, 0), MovedPath := FileInfo(10, "hash-x", 0, 0)],
      map["x" := AssetX(), "y" := AssetY()],
      map[JournalKey("x", Original) := MoveRecord(OldPath, MovedPath)],
      map["u" := User("u", None)])
  }

  /** An environment whose renames all succeed. */
  function RenamingEnv(): Env {
    Env((c: RenderContext) => "", (s: Path, t: Path) => Renamed, (s: Path, t: Path) => FileInfo(0, "", 0, 0))
  }

  /** Such a world exists: `x` moved from `OldPath` to `MovedPath`, `y`
      placed at `OldPath` afterwards. */
  lemma HistoryWorldIsACase()
    ensures HistoryCase(HistoryWorld(), AssetX(), AssetY())
    ensures NextPath !in HistoryWorld().fs && RenamingEnv().rename(OldPath, NextPath) == Renamed
  {
  }
}
