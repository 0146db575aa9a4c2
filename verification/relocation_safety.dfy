/** Crash safety of the relocation engine: at every point of a move, the file
    the journal tells the next run to resume from holds the asset's content,
    both for the asset being moved and for every other settled asset. */
module RelocationSafety {
  import opened Common
  import opened ConflictResolver
  import opened Relocation
  import opened RelocationFrame

  /** The file a next run would take as the asset's content is intact: the
      file its next move starts from (`SourceOf`). */
  predicate Recoverable(w: World, id: AssetId) {
    id in w.assets && Holds(w, SourceOf(w, w.assets[id]), w.assets[id])
  }

  /** A recoverable asset, stored under its own id, with no unfinished move:
      its own path holds it. */
  predicate Settled(w: World, id: AssetId) {
    Recoverable(w, id) && w.assets[id].id == id && !Unfinished(w, w.assets[id])
  }

  /** Every state a run passes through from position `from` of its log on
      leaves asset `id` recoverable. */
  predicate SafeFrom(r: Run, from: nat, id: AssetId) {
    forall k :: from <= k <= |r.log| ==> Recoverable(Replay(r.start, r.log, k), id)
  }

  lemma SafeAtStart(st: Run, id: AssetId)
    requires st.Valid() && Recoverable(st.w, id)
    ensures SafeFrom(st, |st.log|, id)
  {
  }

  /** One more effect keeps a run safe when the state it reaches is recoverable. */
  lemma ThenSafe(st: Run, e: Effect, from: nat, id: AssetId)
    requires st.Valid() && from <= |st.log| && SafeFrom(st, from, id)
    requires Recoverable(Apply(st.w, e), id)
    ensures SafeFrom(st.Then(e), from, id)
  {
    var r := st.Then(e);
    forall k | from <= k <= |r.log|
      ensures Recoverable(Replay(r.start, r.log, k), id)
    {
      if k <= |st.log| {
        ReplayPrefix(st.start, st.log, [e], k);
      }
    }
  }

  /** Effects that only read leave the state, and so safety, as it was. */
  lemma ReadSafe(st: Run, e: Effect, from: nat, id: AssetId)
    requires st.Valid() && from <= |st.log| && SafeFrom(st, from, id)
    requires e.LoadAsset? || e.CheckExists? || e.Stat? || e.HashFile?
    ensures SafeFrom(st.Then(e), from, id)
  {
    ThenSafe(st, e, from, id);
  }

  lemma {:induction false} CheckAllSafe(st: Run, paths: seq<Path>, from: nat, id: AssetId)
    requires st.Valid() && from <= |st.log| && SafeFrom(st, from, id)
    ensures SafeFrom(CheckAll(st, paths), from, id)
    decreases |paths|
  {
    if |paths| > 0 {
      ReadSafe(st, CheckExists(paths[0]), from, id);
      CheckAllSafe(st.Then(CheckExists(paths[0])), paths[1..], from, id);
    }
  }

  /** The journal records the move of asset `id` from `source` to `target`,
      and the asset has not taken `target` as its path yet. */
  predicate Journaled(w: World, id: AssetId, source: Path, target: Path) {
    var key := JournalKey(id, Original);
    && key in w.journal && w.journal[key] == MoveRecord(source, target)
    && id in w.assets && w.assets[id].originalPath != target
  }

  lemma RenameRecoverable(w: World, a: Asset, source: Path, target: Path, outcome: RenameOutcome)
    requires a.id in w.assets && w.assets[a.id] == a && Journaled(w, a.id, source, target)
    requires Holds(w, source, a) && target !in w.fs
    ensures Recoverable(Apply(w, Rename(source, target, outcome)), a.id)
  {
    var w' := Apply(w, Rename(source, target, outcome));
    assert w'.journal == w.journal && w'.assets == w.assets;
    if outcome == Renamed {
      assert w'.fs == (w.fs - {source})[target := w.fs[source]];
      assert source !in w'.fs;
    } else {
      assert w' == w;
    }
  }

  /** A copy to the destination leaves the source, which the journal still
      names as the old path, untouched. */
  lemma CopyRecoverable(w: World, a: Asset, source: Path, target: Path, landed: FileInfo)
    requires a.id in w.assets && w.assets[a.id] == a && Journaled(w, a.id, source, target)
    requires Holds(w, source, a) && source != target
    ensures var w' := Apply(w, CopyFile(source, target, landed));
      Recoverable(w', a.id) && Journaled(w', a.id, source, target) && Holds(w', source, a)
      && w'.assets == w.assets && w'.fs[target] == landed
  {
    var w' := Apply(w, CopyFile(source, target, landed));
    assert w'.fs == w.fs[target := landed];
    assert w'.fs[source] == w.fs[source];
  }

  /** Deleting a rejected copy leaves the source in place. */
  lemma UnlinkTargetRecoverable(w: World, a: Asset, source: Path, target: Path)
    requires a.id in w.assets && w.assets[a.id] == a && Journaled(w, a.id, source, target)
    requires Holds(w, source, a) && source != target
    ensures Recoverable(Apply(w, Unlink(target)), a.id)
  {
    assert Apply(w, Unlink(target)).fs[source] == w.fs[source];
  }

  /** Once the verified copy is in place, deleting the source leaves the copy as
      the file the journal resumes from. */
  lemma UnlinkSourceRecoverable(w: World, a: Asset, source: Path, target: Path)
    requires a.id in w.assets && w.assets[a.id] == a && Journaled(w, a.id, source, target)
    requires Holds(w, target, a) && source != target
    ensures var w' := Apply(w, Unlink(source));
      Recoverable(w', a.id) && Journaled(w', a.id, source, target) && Holds(w', target, a) && w'.assets == w.assets
  {
    assert Apply(w, Unlink(source)).fs[target] == w.fs[target];
  }

  /** The copy fallback after `EXDEV`: the source is deleted only once the copy
      has the asset's size and checksum. */
  lemma CopyFallbackSafe(st: Run, env: Env, a: Asset, source: Path, target: Path, from: nat)
    requires st.Valid() && from <= |st.log| && SafeFrom(st, from, a.id)
    requires a.id in st.w.assets && st.w.assets[a.id] == a
    requires Journaled(st.w, a.id, source, target)
    requires Holds(st.w, source, a) && source != target
    ensures SafeFrom(CopyFallback(st, env, a, source, target), from, a.id)
  {
    var landed := env.copy(source, target);
    var copied := st.Then(CopyFile(source, target, landed));
    CopyRecoverable(st.w, a, source, target, landed);
    ThenSafe(st, CopyFile(source, target, landed), from, a.id);
    var sized := copied.Then(Stat(target));
    ReadSafe(copied, Stat(target), from, a.id);
    if landed.size != a.fileSizeInByte {
      UnlinkTargetRecoverable(sized.w, a, source, target);
      ThenSafe(sized, Unlink(target), from, a.id);
    } else {
      var hashed := sized.Then(HashFile(target));
      ReadSafe(sized, HashFile(target), from, a.id);
      if landed.hash != a.checksum {
        UnlinkTargetRecoverable(hashed.w, a, source, target);
        ThenSafe(hashed, Unlink(target), from, a.id);
      } else {
        CommitSafe(hashed, a, source, target, st.w.fs[source], from);
      }
    }
  }

  /** Committing a copy that holds the asset's content: carrying the times
      over, deleting the source and pointing the asset at the copy. */
  lemma CommitSafe(h: Run, a: Asset, source: Path, target: Path, original: FileInfo, from: nat)
    requires h.Valid() && from <= |h.log| && SafeFrom(h, from, a.id)
    requires a.id in h.w.assets && h.w.assets[a.id] == a
    requires Journaled(h.w, a.id, source, target)
    requires Holds(h.w, source, a) && Holds(h.w, target, a) && source != target
    ensures SafeFrom(h.Then(Stat(source)).Then(SetTimes(target, original.atime, original.mtime))
                      .Then(Unlink(source)).Then(UpdateAssetPath(a.id, target)), from, a.id)
  {
    var statted := h.Then(Stat(source));
    ReadSafe(h, Stat(source), from, a.id);
    var e := SetTimes(target, original.atime, original.mtime);
    var timed := statted.Then(e);
    assert timed.w.fs[target] == h.w.fs[target].(atime := original.atime, mtime := original.mtime);
    assert timed.w.fs[source] == h.w.fs[source];
    ThenSafe(statted, e, from, a.id);
    var unlinked := timed.Then(Unlink(source));
    UnlinkSourceRecoverable(timed.w, a, source, target);
    ThenSafe(timed, Unlink(source), from, a.id);
    ThenSafe(unlinked, UpdateAssetPath(a.id, target), from, a.id);
  }

  /** The move itself, once the journal records it, never leaves the asset
      without an intact copy that the journal points to. */
  lemma RelocateSafe(st: Run, env: Env, a: Asset, source: Path, target: Path, from: nat)
    requires st.Valid() && from <= |st.log| && SafeFrom(st, from, a.id)
    requires a.id in st.w.assets && st.w.assets[a.id] == a
    requires Journaled(st.w, a.id, source, target)
    requires Holds(st.w, source, a) && target !in st.w.fs
    ensures SafeFrom(Relocate(st, env, a, source, target), from, a.id)
  {
    var outcome := env.rename(source, target);
    var renamed := st.Then(Rename(source, target, outcome));
    RenameRecoverable(st.w, a, source, target, outcome);
    ThenSafe(st, Rename(source, target, outcome), from, a.id);
    match outcome
    case Renamed =>
      ThenSafe(renamed, UpdateAssetPath(a.id, target), from, a.id);
    case RenameFailed =>
    case CrossDevice =>
      assert renamed.w == st.w;
      CopyFallbackSafe(renamed, env, a, source, target, from);
  }

  /** Recording the move is itself a safe step: the record's old path holds
      the content. */
  lemma JournalWriteSafe(st: Run, e: Effect, a: Asset, source: Path, target: Path, from: nat)
    requires st.Valid() && from <= |st.log| && SafeFrom(st, from, a.id)
    requires a.id in st.w.assets && st.w.assets[a.id] == a && Holds(st.w, source, a)
    requires a.originalPath != target
    requires e == JournalCreate(JournalKey(a.id, Original), MoveRecord(source, target))
          || e == JournalUpdate(JournalKey(a.id, Original), MoveRecord(source, target))
    ensures SafeFrom(st.Then(e), from, a.id) && Journaled(st.Then(e).w, a.id, source, target)
  {
    var w' := Apply(st.w, e);
    assert w'.fs == st.w.fs && w'.assets == st.w.assets;
    ThenSafe(st, e, from, a.id);
  }

  lemma ResumeFromNewSafe(st: Run, env: Env, a: Asset, target: Path, from: nat)
    requires st.Valid() && from <= |st.log| && SafeFrom(st, from, a.id)
    requires a.id in st.w.assets && st.w.assets[a.id] == a && target !in st.w.fs
    requires a.originalPath != target
    requires var key := JournalKey(a.id, Original);
      key in st.w.journal && st.w.journal[key].newPath in st.w.fs
    ensures var key := JournalKey(a.id, Original);
      var m := st.w.journal[key];
      var found := st.w.fs[m.newPath];
      var sized := st.Then(Stat(m.newPath));
      var hashed := sized.Then(HashFile(m.newPath));
      && SafeFrom(sized, from, a.id)
      && SafeFrom(hashed, from, a.id)
      && (found.size == a.fileSizeInByte && found.hash == a.checksum ==>
            SafeFrom(Relocate(hashed.Then(JournalUpdate(key, MoveRecord(m.newPath, target))), env, a, m.newPath, target), from, a.id))
  {
    var key := JournalKey(a.id, Original);
    var m := st.w.journal[key];
    var found := st.w.fs[m.newPath];
    var sized := st.Then(Stat(m.newPath));
    ReadSafe(st, Stat(m.newPath), from, a.id);
    var hashed := sized.Then(HashFile(m.newPath));
    ReadSafe(sized, HashFile(m.newPath), from, a.id);
    if found.size == a.fileSizeInByte && found.hash == a.checksum {
      var e := JournalUpdate(key, MoveRecord(m.newPath, target));
      JournalWriteSafe(hashed, e, a, m.newPath, target, from);
      RelocateSafe(hashed.Then(e), env, a, m.newPath, target, from);
    }
  }

  /** Moving a file keeps the asset recoverable in every intermediate state,
      provided the destination is free. */
  lemma MoveFileSafe(st: Run, env: Env, a: Asset, target: Path, from: nat)
    requires st.Valid() && from <= |st.log| && SafeFrom(st, from, a.id)
    requires a.id in st.w.assets && st.w.assets[a.id] == a && Recoverable(st.w, a.id)
    requires target != a.originalPath ==> target !in st.w.fs
    ensures SafeFrom(MoveFile(st, env, a, target), from, a.id)
  {
    var key := JournalKey(a.id, Original);
    var record := MoveRecord(a.originalPath, target);
    if a.originalPath == target {
    } else if !Unfinished(st.w, a) {
      var e := if key !in st.w.journal then JournalCreate(key, record) else JournalUpdate(key, record);
      assert MoveFile(st, env, a, target) == Relocate(st.Then(e), env, a, a.originalPath, target);
      JournalWriteSafe(st, e, a, a.originalPath, target, from);
      RelocateSafe(st.Then(e), env, a, a.originalPath, target, from);
    } else {
      var m := st.w.journal[key];
      var first := st.Then(CheckExists(m.oldPath));
      ReadSafe(st, CheckExists(m.oldPath), from, a.id);
      var checked := first.Then(CheckExists(m.newPath));
      ReadSafe(first, CheckExists(m.newPath), from, a.id);
      if m.oldPath in st.w.fs {
        var e := JournalUpdate(key, MoveRecord(m.oldPath, target));
        JournalWriteSafe(checked, e, a, m.oldPath, target, from);
        RelocateSafe(checked.Then(e), env, a, m.oldPath, target, from);
      } else if m.newPath in st.w.fs {
        ResumeFromNewSafe(checked, env, a, target, from);
      }
    }
  }

  /** Crash safety: an asset that is recoverable before it is moved stays
      recoverable after every single effect of the move, so a crash at any
      point leaves a journal that lets the next run finish without loss. The
      same holds for every other settled asset whose file the move does not
      start from. */
  lemma MoveAssetSafe(st: Run, env: Env, a: Asset, storageLabel: Option<string>, filename: string)
    requires st.Valid() && a.id in st.w.assets && st.w.assets[a.id] == a && Recoverable(st.w, a.id)
    ensures var r := MoveAsset(st, env, a, storageLabel, filename);
      && SafeFrom(r, |st.log|, a.id)
      && forall b :: b != a.id && Settled(st.w, b) && st.w.assets[b].originalPath != SourceOf(st.w, a) ==>
           SafeFrom(r, |st.log|, b)
  {
    SafeAtStart(st, a.id);
    if !a.isReadOnly {
      var d := TemplatePath(st.w.fs.Keys, env.render, a, storageLabel, filename);
      CheckAllSafe(st, d.probed, |st.log|, a.id);
      MoveFileSafe(CheckAll(st, d.probed), env, a, d.path, |st.log|);
    }
    forall b | b != a.id && Settled(st.w, b) && st.w.assets[b].originalPath != SourceOf(st.w, a)
      ensures SafeFrom(MoveAsset(st, env, a, storageLabel, filename), |st.log|, b)
    {
      OtherAssetsStaySafe(st, env, a, storageLabel, filename, b);
    }
  }

  /** A framed change by the move of another asset that neither starts from
      nor lands on a settled asset's file leaves that asset settled, with its
      record and its file as they were. */
  lemma FrameKeepsSettled(w0: World, w1: World, id: AssetId, source: Path, target: Path, b: AssetId)
    requires MoveFrame(w0, w1, id, source, target) && b != id && Settled(w0, b)
    requires w0.assets[b].originalPath != source && w0.assets[b].originalPath != target
    ensures var p := w0.assets[b].originalPath;
      && Settled(w1, b) && w1.assets[b] == w0.assets[b]
      && p in w1.fs && w1.fs[p] == w0.fs[p]
  {
    var key := JournalKey(b, Original);
    var x := w0.assets[b];
    assert key != JournalKey(id, Original);
    assert (key in w1.journal <==> key in w0.journal) && (key in w0.journal ==> w1.journal[key] == w0.journal[key]);
    assert b in w1.assets && w1.assets[b] == x;
    assert !Unfinished(w1, x);
    assert x.originalPath in w1.fs && w1.fs[x.originalPath] == w0.fs[x.originalPath];
  }

  /** Moving one asset never costs another settled asset its file: in every
      state the move passes through, the other asset keeps its record and the
      file at its path, provided the move does not start from that file. */
  lemma OtherAssetsStaySafe(st: Run, env: Env, a: Asset, storageLabel: Option<string>, filename: string, b: AssetId)
    requires st.Valid() && b != a.id && Settled(st.w, b)
    requires st.w.assets[b].originalPath != SourceOf(st.w, a)
    ensures var r := MoveAsset(st, env, a, storageLabel, filename);
      var p := st.w.assets[b].originalPath;
      && SafeFrom(r, |st.log|, b)
      && Settled(r.w, b) && r.w.assets[b] == st.w.assets[b]
      && p in r.w.fs && r.w.fs[p] == st.w.fs[p]
  {
    var r := MoveAsset(st, env, a, storageLabel, filename);
    var d := TemplatePath(st.w.fs.Keys, env.render, a, storageLabel, filename);
    if a.isReadOnly || d.path in st.w.fs {
      assert r == st;
      SafeAtStart(st, b);
    } else {
      var source := SourceOf(st.w, a);
      MoveAssetPermitted(st, env, a, storageLabel, filename);
      PassesThrough(st, r);
      forall k | |st.log| <= k <= |r.log|
        ensures Settled(Replay(r.start, r.log, k), b)
        ensures Replay(r.start, r.log, k).assets[b] == st.w.assets[b]
        ensures var p := st.w.assets[b].originalPath;
          p in Replay(r.start, r.log, k).fs && Replay(r.start, r.log, k).fs[p] == st.w.fs[p]
      {
        PermittedFramed(r, |st.log|, k, a.id, source, d.path);
        FrameKeepsSettled(st.w, Replay(r.start, r.log, k), a.id, source, d.path, b);
      }
      assert Replay(r.start, r.log, |r.log|) == r.w;
    }
  }
}
