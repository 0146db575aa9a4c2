/** The behaviour the relocation engine promises, stated per scenario: a fresh
    move, the two ways to resume a recorded move and the rejection of a bad
    leftover, the cross-device copy and its failures, collisions, skips,
    idempotence, live photos and the bulk job. */
module RelocationProperties {
  import opened Common
  import opened ConflictResolver
  import opened Relocation
  import opened RelocationFrame
  import opened RelocationSafety

  /** Log bookkeeping: a chain of effects appends them in order. */
  lemma Log2(st: Run, e0: Effect, e1: Effect)
    requires st.Valid()
    ensures st.Then(e0).Then(e1).log == st.log + [e0, e1]
  {
  }

  lemma Log3(st: Run, e0: Effect, e1: Effect, e2: Effect)
    requires st.Valid()
    ensures st.Then(e0).Then(e1).Then(e2).log == st.log + [e0, e1, e2]
  {
  }

  lemma Log5(st: Run, e0: Effect, e1: Effect, e2: Effect, e3: Effect, e4: Effect)
    requires st.Valid()
    ensures st.Then(e0).Then(e1).Then(e2).Then(e3).Then(e4).log == st.log + [e0, e1, e2, e3, e4]
  {
  }

  lemma Splice1x2(a: seq<Effect>, e0: Effect, e1: Effect, e2: Effect)
    ensures a + [e0] + [e1, e2] == a + [e0, e1, e2]
  {
  }

  lemma Splice3x2(a: seq<Effect>, e0: Effect, e1: Effect, e2: Effect, e3: Effect, e4: Effect)
    ensures a + [e0, e1, e2] + [e3, e4] == a + [e0, e1, e2, e3, e4]
  {
  }

  lemma Splice5x2(a: seq<Effect>, e0: Effect, e1: Effect, e2: Effect, e3: Effect, e4: Effect, e5: Effect, e6: Effect)
    ensures a + [e0, e1, e2, e3, e4] + [e5, e6] == a + [e0, e1, e2, e3, e4, e5, e6]
  {
  }

  lemma Splice2x3(a: seq<Effect>, e0: Effect, e1: Effect, e2: Effect, e3: Effect, e4: Effect)
    ensures a + [e0, e1] + [e2, e3, e4] == a + [e0, e1, e2, e3, e4]
  {
  }

  lemma Splice2x4(a: seq<Effect>, e0: Effect, e1: Effect, e2: Effect, e3: Effect, e4: Effect, e5: Effect)
    ensures a + [e0, e1] + [e2, e3, e4, e5] == a + [e0, e1, e2, e3, e4, e5]
  {
  }

  lemma Splice2x7(a: seq<Effect>, e0: Effect, e1: Effect, e2: Effect, e3: Effect, e4: Effect, e5: Effect, e6: Effect, e7: Effect, e8: Effect)
    ensures a + [e0, e1] + [e2, e3, e4, e5, e6, e7, e8] == a + [e0, e1, e2, e3, e4, e5, e6, e7, e8]
  {
  }

  /** A rename that succeeds is followed by the commit of the target. */
  lemma RenamedRelocate(st: Run, env: Env, a: Asset, source: Path, target: Path)
    requires st.Valid() && source in st.w.fs && source != target && env.rename(source, target) == Renamed
    ensures var r := Relocate(st, env, a, source, target);
      && r.log == st.log + [Rename(source, target, Renamed), UpdateAssetPath(a.id, target)]
      && r.w.journal == st.w.journal
      && r.w.fs == (st.w.fs - {source})[target := st.w.fs[source]]
      && (a.id in st.w.assets ==> a.id in r.w.assets && r.w.assets[a.id].originalPath == target)
  {
  }

  /** A fresh move: the journal record is created before the rename, and a
      successful rename commits the target as the asset's path. */
  lemma FreshMoveRenames(st: Run, env: Env, a: Asset, target: Path)
    requires st.Valid() && a.originalPath != target
    requires JournalKey(a.id, Original) !in st.w.journal && a.originalPath in st.w.fs
    requires env.rename(a.originalPath, target) == Renamed
    ensures var r := MoveFile(st, env, a, target);
      var key := JournalKey(a.id, Original);
      && r.log == st.log + [JournalCreate(key, MoveRecord(a.originalPath, target)),
                            Rename(a.originalPath, target, Renamed),
                            UpdateAssetPath(a.id, target)]
      && r.w.journal == st.w.journal[key := MoveRecord(a.originalPath, target)]
      && (a.id in st.w.assets ==> a.id in r.w.assets && r.w.assets[a.id].originalPath == target)
      && r.w.fs == (st.w.fs - {a.originalPath})[target := st.w.fs[a.originalPath]]
  {
    var key := JournalKey(a.id, Original);
    var e := JournalCreate(key, MoveRecord(a.originalPath, target));
    var logged := st.Then(e);
    RenamedRelocate(logged, env, a, a.originalPath, target);
    Splice1x2(st.log, e, Rename(a.originalPath, target, Renamed), UpdateAssetPath(a.id, target));
  }

  /** A move recorded after an earlier one was committed starts from the
      asset's own path: the old record is overwritten, not resumed. */
  lemma CommittedRecordRestarts(st: Run, env: Env, a: Asset, target: Path)
    requires st.Valid() && a.originalPath != target
    requires JournalKey(a.id, Original) in st.w.journal && !Unfinished(st.w, a)
    requires a.originalPath in st.w.fs && env.rename(a.originalPath, target) == Renamed
    ensures var r := MoveFile(st, env, a, target);
      var key := JournalKey(a.id, Original);
      && r.log == st.log + [JournalUpdate(key, MoveRecord(a.originalPath, target)),
                            Rename(a.originalPath, target, Renamed),
                            UpdateAssetPath(a.id, target)]
      && r.w.journal == st.w.journal[key := MoveRecord(a.originalPath, target)]
      && r.w.fs == (st.w.fs - {a.originalPath})[target := st.w.fs[a.originalPath]]
  {
    var key := JournalKey(a.id, Original);
    var e := JournalUpdate(key, MoveRecord(a.originalPath, target));
    var logged := st.Then(e);
    RenamedRelocate(logged, env, a, a.originalPath, target);
    Splice1x2(st.log, e, Rename(a.originalPath, target, Renamed), UpdateAssetPath(a.id, target));
  }

  /** An unfinished move whose old path still exists resumes from the old
      path, and the record is updated, not created. */
  lemma ResumeFromOldPath(st: Run, env: Env, a: Asset, target: Path)
    requires st.Valid() && a.originalPath != target && Unfinished(st.w, a)
    requires var m := st.w.journal[JournalKey(a.id, Original)];
      m.oldPath in st.w.fs && m.oldPath != target && env.rename(m.oldPath, target) == Renamed
    ensures var r := MoveFile(st, env, a, target);
      var key := JournalKey(a.id, Original);
      var m := st.w.journal[key];
      && r.log == st.log + [CheckExists(m.oldPath), CheckExists(m.newPath),
                            JournalUpdate(key, MoveRecord(m.oldPath, target)),
                            Rename(m.oldPath, target, Renamed),
                            UpdateAssetPath(a.id, target)]
      && (a.id in st.w.assets ==> a.id in r.w.assets && r.w.assets[a.id].originalPath == target)
  {
    var key := JournalKey(a.id, Original);
    var m := st.w.journal[key];
    var e := JournalUpdate(key, MoveRecord(m.oldPath, target));
    var logged := st.Then(CheckExists(m.oldPath)).Then(CheckExists(m.newPath)).Then(e);
    Log3(st, CheckExists(m.oldPath), CheckExists(m.newPath), e);
    RenamedRelocate(logged, env, a, m.oldPath, target);
    Splice3x2(st.log, CheckExists(m.oldPath), CheckExists(m.newPath), e, Rename(m.oldPath, target, Renamed), UpdateAssetPath(a.id, target));
  }

  /** An unfinished move whose old path is gone resumes from its new path once
      that file passes the size check and then the hash check. */
  lemma ResumeFromNewPath(st: Run, env: Env, a: Asset, target: Path)
    requires st.Valid() && a.originalPath != target && Unfinished(st.w, a)
    requires var m := st.w.journal[JournalKey(a.id, Original)];
      && m.oldPath !in st.w.fs && m.newPath in st.w.fs && m.newPath != target
      && Holds(st.w, m.newPath, a) && env.rename(m.newPath, target) == Renamed
    ensures var r := MoveFile(st, env, a, target);
      var key := JournalKey(a.id, Original);
      var m := st.w.journal[key];
      && r.log == st.log + [CheckExists(m.oldPath), CheckExists(m.newPath),
                            Stat(m.newPath), HashFile(m.newPath),
                            JournalUpdate(key, MoveRecord(m.newPath, target)),
                            Rename(m.newPath, target, Renamed),
                            UpdateAssetPath(a.id, target)]
      && (a.id in st.w.assets ==> a.id in r.w.assets && r.w.assets[a.id].originalPath == target)
  {
    var key := JournalKey(a.id, Original);
    var m := st.w.journal[key];
    var e := JournalUpdate(key, MoveRecord(m.newPath, target));
    var c0, c1, c2, c3 := CheckExists(m.oldPath), CheckExists(m.newPath), Stat(m.newPath), HashFile(m.newPath);
    var logged := st.Then(c0).Then(c1).Then(c2).Then(c3).Then(e);
    Log5(st, c0, c1, c2, c3, e);
    assert logged.w.fs == st.w.fs && logged.w.assets == st.w.assets;
    RenamedRelocate(logged, env, a, m.newPath, target);
    Splice5x2(st.log, c0, c1, c2, c3, e, Rename(m.newPath, target, Renamed), UpdateAssetPath(a.id, target));
  }

  /** A leftover at the recorded new path with the wrong size or checksum is
      not trusted: nothing is renamed, copied, journaled or committed. */
  lemma ResumeRejected(st: Run, env: Env, a: Asset, target: Path)
    requires st.Valid() && a.originalPath != target && Unfinished(st.w, a)
    requires var m := st.w.journal[JournalKey(a.id, Original)];
      m.oldPath !in st.w.fs && m.newPath in st.w.fs && !Holds(st.w, m.newPath, a)
    ensures var r := MoveFile(st, env, a, target);
      var m := st.w.journal[JournalKey(a.id, Original)];
      var sizeMatches := st.w.fs[m.newPath].size == a.fileSizeInByte;
      && r.w == st.w
      && r.log == st.log + [CheckExists(m.oldPath), CheckExists(m.newPath), Stat(m.newPath)]
                         + (if sizeMatches then [HashFile(m.newPath)] else [])
  {
  }

  /** An unfinished move with no file at either end does nothing more. */
  lemma ResumeNothingLeft(st: Run, env: Env, a: Asset, target: Path)
    requires st.Valid() && a.originalPath != target && Unfinished(st.w, a)
    requires var m := st.w.journal[JournalKey(a.id, Original)];
      m.oldPath !in st.w.fs && m.newPath !in st.w.fs
    ensures var r := MoveFile(st, env, a, target);
      var m := st.w.journal[JournalKey(a.id, Original)];
      r.w == st.w && r.log == st.log + [CheckExists(m.oldPath), CheckExists(m.newPath)]
  {
  }

  /** The effects of a copy that passes both checks, in order. */
  lemma AcceptedCopyLog(st: Run, env: Env, a: Asset, source: Path, target: Path)
    requires st.Valid() && source in st.w.fs && source != target
    requires var landed := env.copy(source, target);
      landed.size == a.fileSizeInByte && landed.hash == a.checksum
    ensures var original := st.w.fs[source];
      CopyFallback(st, env, a, source, target).log
        == st.log + [CopyFile(source, target, env.copy(source, target)),
                     Stat(target), HashFile(target), Stat(source),
                     SetTimes(target, original.atime, original.mtime),
                     Unlink(source),
                     UpdateAssetPath(a.id, target)]
  {
  }

  /** The effects of a copy whose size is wrong, in order. */
  lemma SizeRejectedCopyLog(st: Run, env: Env, a: Asset, source: Path, target: Path)
    requires st.Valid() && source in st.w.fs && source != target
    requires env.copy(source, target).size != a.fileSizeInByte
    ensures CopyFallback(st, env, a, source, target).log
      == st.log + [CopyFile(source, target, env.copy(source, target)), Stat(target), Unlink(target)]
  {
  }

  /** The effects of a copy of the right size but the wrong hash, in order. */
  lemma HashRejectedCopyLog(st: Run, env: Env, a: Asset, source: Path, target: Path)
    requires st.Valid() && source in st.w.fs && source != target
    requires var landed := env.copy(source, target);
      landed.size == a.fileSizeInByte && landed.hash != a.checksum
    ensures CopyFallback(st, env, a, source, target).log
      == st.log + [CopyFile(source, target, env.copy(source, target)), Stat(target), HashFile(target), Unlink(target)]
  {
  }

  /** A fresh move whose rename fails with `EXDEV` is the journal write, the
      failed rename and the copy fallback from an unchanged filesystem. */
  lemma FreshCrossDevice(st: Run, env: Env, a: Asset, target: Path)
    requires st.Valid() && a.originalPath != target
    requires JournalKey(a.id, Original) !in st.w.journal && a.originalPath in st.w.fs
    requires env.rename(a.originalPath, target) == CrossDevice
    ensures var source := a.originalPath;
      var renamed := st.Then(JournalCreate(JournalKey(a.id, Original), MoveRecord(source, target)))
                       .Then(Rename(source, target, CrossDevice));
      && renamed.Valid()
      && renamed.log == st.log + [JournalCreate(JournalKey(a.id, Original), MoveRecord(source, target)),
                                  Rename(source, target, CrossDevice)]
      && renamed.w.fs == st.w.fs && renamed.w.assets == st.w.assets
      && MoveFile(st, env, a, target) == CopyFallback(renamed, env, a, source, target)
  {
  }

  lemma UpdatePathKeepsFiles(w: World, id: AssetId, p: Path)
    ensures Apply(w, UpdateAssetPath(id, p)).fs == w.fs
  {
  }

  /** A good copy after `EXDEV` replaces the source by the copy, carrying
      the original's times. */
  lemma CrossDeviceCommitFiles(st: Run, env: Env, a: Asset, target: Path)
    requires st.Valid() && a.originalPath != target
    requires JournalKey(a.id, Original) !in st.w.journal && a.originalPath in st.w.fs
    requires env.rename(a.originalPath, target) == CrossDevice
    requires var landed := env.copy(a.originalPath, target);
      landed.size == a.fileSizeInByte && landed.hash == a.checksum
    ensures var source := a.originalPath;
      var original := st.w.fs[source];
      MoveFile(st, env, a, target).w.fs
        == (st.w.fs - {source})[target := env.copy(source, target).(atime := original.atime, mtime := original.mtime)]
  {
    var source := a.originalPath;
    var renamed := st.Then(JournalCreate(JournalKey(a.id, Original), MoveRecord(source, target)))
                     .Then(Rename(source, target, CrossDevice));
    FreshCrossDevice(st, env, a, target);
    CopyAccepted(renamed, env, a, source, target);
    var original := st.w.fs[source];
    UpdatePathKeepsFiles(renamed.w.(fs := (renamed.w.fs - {source})[target := env.copy(source, target).(atime := original.atime, mtime := original.mtime)]), a.id, target);
  }

  /** A copy that passes both checks commits the target as the asset's path. */
  lemma AcceptedCopyCommits(st: Run, env: Env, a: Asset, source: Path, target: Path)
    requires st.Valid() && source in st.w.fs && source != target && a.id in st.w.assets
    requires var landed := env.copy(source, target);
      landed.size == a.fileSizeInByte && landed.hash == a.checksum
    ensures var r := CopyFallback(st, env, a, source, target);
      a.id in r.w.assets && r.w.assets[a.id].originalPath == target
  {
    CopyAccepted(st, env, a, source, target);
    var landed := env.copy(source, target);
    var original := st.w.fs[source];
    var copied := st.w.(fs := (st.w.fs - {source})[target := landed.(atime := original.atime, mtime := original.mtime)]);
    UpdatePathSets(copied, a.id, target);
  }

  lemma UpdatePathSets(w: World, id: AssetId, p: Path)
    requires id in w.assets
    ensures var w' := Apply(w, UpdateAssetPath(id, p)); id in w'.assets && w'.assets[id].originalPath == p
  {
  }

  /** A good copy after `EXDEV` commits the target as the asset's path. */
  lemma CrossDeviceCommitPath(st: Run, env: Env, a: Asset, target: Path)
    requires st.Valid() && a.originalPath != target && a.id in st.w.assets
    requires JournalKey(a.id, Original) !in st.w.journal && a.originalPath in st.w.fs
    requires env.rename(a.originalPath, target) == CrossDevice
    requires var landed := env.copy(a.originalPath, target);
      landed.size == a.fileSizeInByte && landed.hash == a.checksum
    ensures var r := MoveFile(st, env, a, target);
      a.id in r.w.assets && r.w.assets[a.id].originalPath == target
  {
    var source := a.originalPath;
    var renamed := st.Then(JournalCreate(JournalKey(a.id, Original), MoveRecord(source, target)))
                     .Then(Rename(source, target, CrossDevice));
    FreshCrossDevice(st, env, a, target);
    AcceptedCopyCommits(renamed, env, a, source, target);
  }

  /** The effects of a fresh move across devices whose copy is good. */
  lemma CrossDeviceAcceptedLog(st: Run, env: Env, a: Asset, target: Path)
    requires st.Valid() && a.originalPath != target
    requires JournalKey(a.id, Original) !in st.w.journal && a.originalPath in st.w.fs
    requires env.rename(a.originalPath, target) == CrossDevice
    requires var landed := env.copy(a.originalPath, target);
      landed.size == a.fileSizeInByte && landed.hash == a.checksum
    ensures var source := a.originalPath;
      var original := st.w.fs[source];
      MoveFile(st, env, a, target).log
        == st.log + [JournalCreate(JournalKey(a.id, Original), MoveRecord(source, target)),
                     Rename(source, target, CrossDevice),
                     CopyFile(source, target, env.copy(source, target)),
                     Stat(target), HashFile(target), Stat(source),
                     SetTimes(target, original.atime, original.mtime),
                     Unlink(source),
                     UpdateAssetPath(a.id, target)]
  {
    var source := a.originalPath;
    var original := st.w.fs[source];
    var j := JournalCreate(JournalKey(a.id, Original), MoveRecord(source, target));
    var rn := Rename(source, target, CrossDevice);
    var renamed := st.Then(j).Then(rn);
    FreshCrossDevice(st, env, a, target);
    AcceptedCopyLog(renamed, env, a, source, target);
    Splice2x7(st.log, j, rn, CopyFile(source, target, env.copy(source, target)),
              Stat(target), HashFile(target), Stat(source),
              SetTimes(target, original.atime, original.mtime),
              Unlink(source),
              UpdateAssetPath(a.id, target));
  }

  /** `EXDEV`, then a good copy: copy, check the size, then the hash, carry the
      times over, delete the source once, commit. */
  lemma CrossDeviceMoveCommits(st: Run, env: Env, a: Asset, target: Path)
    requires st.Valid() && a.originalPath != target
    requires JournalKey(a.id, Original) !in st.w.journal && a.originalPath in st.w.fs
    requires env.rename(a.originalPath, target) == CrossDevice
    requires var landed := env.copy(a.originalPath, target);
      landed.size == a.fileSizeInByte && landed.hash == a.checksum
    ensures var r := MoveFile(st, env, a, target);
      var source := a.originalPath;
      var landed := env.copy(source, target);
      var original := st.w.fs[source];
      && r.log == st.log + [JournalCreate(JournalKey(a.id, Original), MoveRecord(source, target)),
                            Rename(source, target, CrossDevice),
                            CopyFile(source, target, landed),
                            Stat(target), HashFile(target), Stat(source),
                            SetTimes(target, original.atime, original.mtime),
                            Unlink(source),
                            UpdateAssetPath(a.id, target)]
      && source !in r.w.fs
      && target in r.w.fs && r.w.fs[target] == landed.(atime := original.atime, mtime := original.mtime)
      && (a.id in st.w.assets ==> a.id in r.w.assets && r.w.assets[a.id].originalPath == target)
  {
    CrossDeviceAcceptedLog(st, env, a, target);
    CrossDeviceCommitFiles(st, env, a, target);
    if a.id in st.w.assets {
      CrossDeviceCommitPath(st, env, a, target);
    }
  }

  /** `EXDEV`, then a copy of the wrong size: the copy is deleted and the asset
      keeps its path and its file. */
  lemma CrossDeviceSizeMismatch(st: Run, env: Env, a: Asset, target: Path)
    requires st.Valid() && a.originalPath != target && target !in st.w.fs
    requires JournalKey(a.id, Original) !in st.w.journal && a.originalPath in st.w.fs
    requires env.rename(a.originalPath, target) == CrossDevice
    requires env.copy(a.originalPath, target).size != a.fileSizeInByte
    ensures var r := MoveFile(st, env, a, target);
      var source := a.originalPath;
      && r.log == st.log + [JournalCreate(JournalKey(a.id, Original), MoveRecord(source, target)),
                            Rename(source, target, CrossDevice),
                            CopyFile(source, target, env.copy(source, target)),
                            Stat(target),
                            Unlink(target)]
      && r.w.assets == st.w.assets && r.w.fs == st.w.fs
  {
    var source := a.originalPath;
    var renamed := st.Then(JournalCreate(JournalKey(a.id, Original), MoveRecord(source, target)))
                     .Then(Rename(source, target, CrossDevice));
    FreshCrossDevice(st, env, a, target);
    SizeRejectedCopyLog(renamed, env, a, source, target);
    Splice2x3(st.log, JournalCreate(JournalKey(a.id, Original), MoveRecord(source, target)), Rename(source, target, CrossDevice),
              CopyFile(source, target, env.copy(source, target)), Stat(target), Unlink(target));
    CopyRejected(renamed, env, a, source, target);
    assert st.w.fs - {target} == st.w.fs;
  }

  /** `EXDEV`, then a copy of the right size but the wrong hash: only the copy
      is deleted, once, and the asset keeps its path and its file. */
  lemma CrossDeviceHashMismatch(st: Run, env: Env, a: Asset, target: Path)
    requires st.Valid() && a.originalPath != target && target !in st.w.fs
    requires JournalKey(a.id, Original) !in st.w.journal && a.originalPath in st.w.fs
    requires env.rename(a.originalPath, target) == CrossDevice
    requires var landed := env.copy(a.originalPath, target);
      landed.size == a.fileSizeInByte && landed.hash != a.checksum
    ensures var r := MoveFile(st, env, a, target);
      var source := a.originalPath;
      && r.log == st.log + [JournalCreate(JournalKey(a.id, Original), MoveRecord(source, target)),
                            Rename(source, target, CrossDevice),
                            CopyFile(source, target, env.copy(source, target)),
                            Stat(target), HashFile(target),
                            Unlink(target)]
      && r.w.assets == st.w.assets && r.w.fs == st.w.fs
  {
    var source := a.originalPath;
    var renamed := st.Then(JournalCreate(JournalKey(a.id, Original), MoveRecord(source, target)))
                     .Then(Rename(source, target, CrossDevice));
    FreshCrossDevice(st, env, a, target);
    HashRejectedCopyLog(renamed, env, a, source, target);
    Splice2x4(st.log, JournalCreate(JournalKey(a.id, Original), MoveRecord(source, target)), Rename(source, target, CrossDevice),
              CopyFile(source, target, env.copy(source, target)), Stat(target), HashFile(target), Unlink(target));
    CopyRejected(renamed, env, a, source, target);
    assert st.w.fs - {target} == st.w.fs;
  }

  /** Any other rename failure: the journal keeps the record for a retry and
      nothing else changes. */
  lemma RenameFailureKeepsPath(st: Run, env: Env, a: Asset, target: Path)
    requires st.Valid() && a.originalPath != target
    requires JournalKey(a.id, Original) !in st.w.journal && a.originalPath in st.w.fs
    requires env.rename(a.originalPath, target) == RenameFailed
    ensures var r := MoveFile(st, env, a, target);
      var record := MoveRecord(a.originalPath, target);
      && r.log == st.log + [JournalCreate(JournalKey(a.id, Original), record),
                            Rename(a.originalPath, target, RenameFailed)]
      && r.w == st.w.(journal := st.w.journal[JournalKey(a.id, Original) := record])
  {
  }

  lemma ExtensionOfCandidate(stem: Path, ext: string, n: nat)
    requires '.' !in ext && '/' !in ext
    ensures Extension(Candidate(stem, ext, n)) == ext
  {
    var c := Candidate(stem, ext, n);
    var i := |c| - |ext| - 1;
    assert c[i] == '.' && c[i + 1..] == ext;
    LastIndexOfUnique(c, '.', i);
  }

  /** A free destination is taken as it is: `<stem>.<ext>`. */
  lemma FreeDestinationTaken(files: set<Path>, render: RenderContext -> string, a: Asset, storageLabel: Option<string>, filename: string)
    requires var stem := TemplateStem(render, a, storageLabel, filename);
      var ext := Extension(a.originalPath);
      !AlreadyPlaced(a.originalPath, stem, ext) && stem + "." + ext !in files
    ensures var d := TemplatePath(files, render, a, storageLabel, filename);
      var stem := TemplateStem(render, a, storageLabel, filename);
      var ext := Extension(a.originalPath);
      d.path == stem + "." + ext && d.probed == [d.path]
  {
  }

  /** An occupied destination is replaced by its `+1` variant when that is free. */
  lemma OccupiedDestinationGetsSuffix(files: set<Path>, render: RenderContext -> string, a: Asset, storageLabel: Option<string>, filename: string)
    requires var stem := TemplateStem(render, a, storageLabel, filename);
      var ext := Extension(a.originalPath);
      && !AlreadyPlaced(a.originalPath, stem, ext)
      && stem + "." + ext in files
      && stem + "+1." + ext !in files
    ensures var d := TemplatePath(files, render, a, storageLabel, filename);
      var stem := TemplateStem(render, a, storageLabel, filename);
      var ext := Extension(a.originalPath);
      d.path == stem + "+1." + ext && d.probed == [stem + "." + ext, d.path]
  {
    var stem := TemplateStem(render, a, storageLabel, filename);
    var ext := Extension(a.originalPath);
    assert NatToString(1) == "1";
    assert Candidate(stem, ext, 1) == stem + "+1." + ext;
    var d := TemplatePath(files, render, a, storageLabel, filename);
    assert |d.probed| == 2;
  }

  /** An asset already at its destination, or at a `+N` variant of it, is not
      moved: no effect at all. */
  lemma PlacedAssetNotMoved(st: Run, env: Env, a: Asset, storageLabel: Option<string>, filename: string)
    requires st.Valid()
    requires AlreadyPlaced(a.originalPath, TemplateStem(env.render, a, storageLabel, filename), Extension(a.originalPath))
    ensures MoveAsset(st, env, a, storageLabel, filename) == st
  {
  }

  /** Whatever destination an asset is given, an asset at that destination is
      already placed: its extension and its rendering are unchanged, and a `+N`
      name is recognised as a duplicate annotation. */
  lemma DestinationIsPlaced(files: set<Path>, render: RenderContext -> string, a: Asset, storageLabel: Option<string>, filename: string)
    ensures var d := TemplatePath(files, render, a, storageLabel, filename);
      var moved := a.(originalPath := d.path);
      var stem := TemplateStem(render, moved, storageLabel, filename);
      && Extension(d.path) == Extension(a.originalPath)
      && stem == TemplateStem(render, a, storageLabel, filename)
      && AlreadyPlaced(d.path, stem, Extension(d.path))
  {
    var d := TemplatePath(files, render, a, storageLabel, filename);
    var stem := TemplateStem(render, a, storageLabel, filename);
    var ext := Extension(a.originalPath);
    if !AlreadyPlaced(a.originalPath, stem, ext) {
      var k := |d.probed| - 1;
      assert d.path == Candidate(stem, ext, k);
      ExtensionOfCandidate(stem, ext, k);
      if k > 0 {
        SuffixedCandidateIsAnnotated(stem, ext, k);
      }
    }
  }

  /** Idempotence: once a move has committed, running it again with the same
      template does nothing at all. */
  lemma MoveAssetIdempotent(st: Run, env: Env, a: Asset, storageLabel: Option<string>, filename: string)
    requires st.Valid() && a.id in st.w.assets && st.w.assets[a.id] == a
    ensures var r := MoveAsset(st, env, a, storageLabel, filename);
      && a.id in r.w.assets
      && (r.w.assets[a.id].originalPath != a.originalPath ==>
            MoveAsset(r, env, r.w.assets[a.id], storageLabel, filename) == r)
  {
    var r := MoveAsset(st, env, a, storageLabel, filename);
    MoveAssetFrame(st, env, a, storageLabel, filename);
    if r.w.assets[a.id].originalPath != a.originalPath {
      DestinationIsPlaced(st.w.fs.Keys, env.render, a, storageLabel, filename);
    }
  }

  /** A committed move leaves the asset's content at its new path, recorded by
      a journal entry whose old path is gone. */
  lemma CommittedMoveHoldsContent(st: Run, env: Env, a: Asset, storageLabel: Option<string>, filename: string)
    requires st.Valid() && a.id in st.w.assets && st.w.assets[a.id] == a && Recoverable(st.w, a.id)
    ensures var r := MoveAsset(st, env, a, storageLabel, filename);
      && a.id in r.w.assets
      && (r.w.assets[a.id].originalPath != a.originalPath ==>
            && r.w.assets[a.id] == a.(originalPath := TemplatePath(st.w.fs.Keys, env.render, a, storageLabel, filename).path)
            && Holds(r.w, r.w.assets[a.id].originalPath, a))
  {
    var r := MoveAsset(st, env, a, storageLabel, filename);
    MoveAssetFrame(st, env, a, storageLabel, filename);
    MoveAssetSafe(st, env, a, storageLabel, filename);
    assert r.log[..|r.log|] == r.log;
    assert Recoverable(r.w, a.id);
  }

  /** Moving one asset keeps the records keyed and leaves the users, and
      every other asset, as they were; a read-only asset is not changed.
      Every file other than the one the move starts from is left as it was,
      so every other settled asset keeps its file and stays settled. */
  lemma MoveAssetKeepsOthers(st: Run, env: Env, a: Asset, storageLabel: Option<string>, filename: string)
    requires st.Valid() && Keyed(st.w) && a.id in st.w.assets && st.w.assets[a.id] == a
    ensures var r := MoveAsset(st, env, a, storageLabel, filename);
      && Keyed(r.w) && r.w.users == st.w.users
      && (forall id :: id in st.w.assets && (st.w.assets[id].isReadOnly || id != a.id) ==>
           id in r.w.assets && r.w.assets[id] == st.w.assets[id])
      && (forall p :: p in st.w.fs && p != SourceOf(st.w, a) ==> p in r.w.fs && r.w.fs[p] == st.w.fs[p])
      && (forall id :: id != a.id && Settled(st.w, id) && st.w.assets[id].originalPath != SourceOf(st.w, a) ==>
           Settled(r.w, id))
  {
    var r := MoveAsset(st, env, a, storageLabel, filename);
    var d := TemplatePath(st.w.fs.Keys, env.render, a, storageLabel, filename);
    MoveAssetFrame(st, env, a, storageLabel, filename);
    forall id | id != a.id && Settled(st.w, id) && st.w.assets[id].originalPath != SourceOf(st.w, a)
      ensures Settled(r.w, id)
    {
      OtherAssetsStaySafe(st, env, a, storageLabel, filename, id);
    }
  }

  /** The bulk job leaves every read-only asset, and every asset it is not
      given, exactly as it was. */
  lemma {:induction false} MigrateEachKeeps(st: Run, env: Env, ids: seq<AssetId>)
    requires st.Valid() && Keyed(st.w)
    ensures var r := MigrateEach(st, env, ids);
      && Keyed(r.w) && r.w.users == st.w.users
      && forall id :: id in st.w.assets && (st.w.assets[id].isReadOnly || id !in ids) ==>
           id in r.w.assets && r.w.assets[id] == st.w.assets[id]
    decreases |ids|
  {
    if |ids| > 0 {
      var next := st;
      if ids[0] in st.w.assets {
        var a := st.w.assets[ids[0]];
        next := MoveAsset(st, env, a, StorageLabel(st.w, a.ownerId), a.originalFileName);
        MoveAssetKeepsOthers(st, env, a, StorageLabel(st.w, a.ownerId), a.originalFileName);
      }
      assert MigrateEach(st, env, ids) == MigrateEach(next, env, ids[1..]);
      MigrateEachKeeps(next, env, ids[1..]);
      forall id | id in st.w.assets && (st.w.assets[id].isReadOnly || id !in ids)
        ensures id in next.w.assets && next.w.assets[id] == st.w.assets[id] && (id in ids[1..] ==> id in ids)
      {
      }
    }
  }

  /** The bulk job never changes a read-only asset. */
  lemma BulkNeverMovesReadOnly(w: World, config: TemplateConfig, env: Env, ids: seq<AssetId>)
    requires Keyed(w)
    ensures var r := HandleMigration(w, config, env, ids);
      forall id :: id in w.assets && w.assets[id].isReadOnly ==> id in r.run.w.assets && r.run.w.assets[id] == w.assets[id]
  {
    if config.enabled {
      MigrateEachKeeps(Begin(w), env, ids);
    }
  }

  /** The asset `x` has a path in both worlds, and when the path changed the
      journal records a move to the new path. */
  predicate JournalBacked(w0: World, w1: World, x: AssetId) {
    && x in w0.assets && x in w1.assets
    && (w1.assets[x].originalPath != w0.assets[x].originalPath ==>
          JournalKey(x, Original) in w1.journal
          && w1.journal[JournalKey(x, Original)].newPath == w1.assets[x].originalPath)
  }

  /** A move of the asset itself leaves it journal-backed. */
  lemma MoveIsBacked(st: Run, env: Env, a: Asset, storageLabel: Option<string>, filename: string)
    requires st.Valid() && a.id in st.w.assets && st.w.assets[a.id] == a
    ensures JournalBacked(st.w, MoveAsset(st, env, a, storageLabel, filename).w, a.id)
  {
    MoveAssetFrame(st, env, a, storageLabel, filename);
  }

  /** A move of another asset keeps `x` journal-backed. */
  lemma OtherMoveKeepsBacked(w0: World, st: Run, env: Env, a: Asset, storageLabel: Option<string>, filename: string, x: AssetId)
    requires st.Valid() && a.id in st.w.assets && st.w.assets[a.id] == a && a.id != x
    requires JournalBacked(w0, st.w, x)
    ensures JournalBacked(w0, MoveAsset(st, env, a, storageLabel, filename).w, x)
  {
    MoveAssetFrame(st, env, a, storageLabel, filename);
    var r := MoveAsset(st, env, a, storageLabel, filename);
    assert JournalKey(x, Original) != JournalKey(a.id, Original);
  }

  /** Migrating a live-photo still also migrates its motion part. Each part
      that changes path is backed by its own journal record of that move. */
  lemma LivePhotoBothJournaled(w: World, config: TemplateConfig, env: Env, id: AssetId)
    requires config.enabled && Keyed(w) && id in w.assets
    requires w.assets[id].livePhotoVideoId.Some?
    requires var motionId := w.assets[id].livePhotoVideoId.value;
      motionId in w.assets && motionId != id
    ensures var r := HandleMigrationSingle(w, config, env, id);
      var motionId := w.assets[id].livePhotoVideoId.value;
      && r.status == Success
      && r.run.log[0] == LoadAsset(id)
      && LoadAsset(motionId) in r.run.log
      && JournalBacked(w, r.run.w, id)
      && JournalBacked(w, r.run.w, motionId)
  {
    LivePhotoLog(w, config, env, id);
    LivePhotoBacked(w, config, env, id);
  }

  /** The live-photo job succeeds, loads the still first and loads the motion
      part later on. */
  lemma LivePhotoLog(w: World, config: TemplateConfig, env: Env, id: AssetId)
    requires config.enabled && Keyed(w) && id in w.assets
    requires w.assets[id].livePhotoVideoId.Some?
    requires var motionId := w.assets[id].livePhotoVideoId.value;
      motionId in w.assets && motionId != id
    ensures var r := HandleMigrationSingle(w, config, env, id);
      var motionId := w.assets[id].livePhotoVideoId.value;
      && r.status == Success
      && r.run.log[0] == LoadAsset(id)
      && LoadAsset(motionId) in r.run.log
  {
    var a := w.assets[id];
    var motionId := a.livePhotoVideoId.value;
    var storageLabel := StorageLabel(w, a.ownerId);
    var loaded := Begin(w).Then(LoadAsset(id));
    var moved := MoveAsset(loaded, env, a, storageLabel, a.originalFileName);
    MoveAssetFrame(loaded, env, a, storageLabel, a.originalFileName);
    var loadedMotion := moved.Then(LoadAsset(motionId));
    var r := MoveAsset(loadedMotion, env, moved.w.assets[motionId], storageLabel, a.originalFileName);
    LivePhotoRun(w, config, env, id);
    assert r.log[|loadedMotion.log| - 1] == LoadAsset(motionId);
    assert r.log[0] == loaded.log[0];
  }

  /** Both parts of a migrated live photo are journal-backed. */
  lemma LivePhotoBacked(w: World, config: TemplateConfig, env: Env, id: AssetId)
    requires config.enabled && Keyed(w) && id in w.assets
    requires w.assets[id].livePhotoVideoId.Some?
    requires var motionId := w.assets[id].livePhotoVideoId.value;
      motionId in w.assets && motionId != id
    ensures var r := HandleMigrationSingle(w, config, env, id);
      var motionId := w.assets[id].livePhotoVideoId.value;
      JournalBacked(w, r.run.w, id) && JournalBacked(w, r.run.w, motionId)
  {
    var a := w.assets[id];
    var motionId := a.livePhotoVideoId.value;
    var storageLabel := StorageLabel(w, a.ownerId);
    var moved := MoveAsset(Begin(w).Then(LoadAsset(id)), env, a, storageLabel, a.originalFileName);
    StillMoveBacked(w, env, id, motionId, storageLabel, a.originalFileName);
    LivePhotoRun(w, config, env, id);
    MotionMoveBacked(w, moved, env, moved.w.assets[motionId], storageLabel, a.originalFileName, id);
  }

  /** Moving the still leaves it journal-backed and its motion part untouched. */
  lemma StillMoveBacked(w: World, env: Env, id: AssetId, motionId: AssetId, storageLabel: Option<string>, filename: string)
    requires Keyed(w) && id in w.assets && motionId in w.assets && motionId != id
    ensures var moved := MoveAsset(Begin(w).Then(LoadAsset(id)), env, w.assets[id], storageLabel, filename);
      JournalBacked(w, moved.w, id) && motionId in moved.w.assets && moved.w.assets[motionId] == w.assets[motionId]
  {
    var loaded := Begin(w).Then(LoadAsset(id));
    MoveAssetFrame(loaded, env, w.assets[id], storageLabel, filename);
    MoveIsBacked(loaded, env, w.assets[id], storageLabel, filename);
  }

  /** Moving an untouched motion part after a journal-backed still leaves both
      journal-backed. */
  lemma MotionMoveBacked(w: World, moved: Run, env: Env, motion: Asset, storageLabel: Option<string>, filename: string, id: AssetId)
    requires moved.Valid() && JournalBacked(w, moved.w, id) && motion.id != id
    requires motion.id in w.assets && w.assets[motion.id] == motion
    requires motion.id in moved.w.assets && moved.w.assets[motion.id] == motion
    ensures var r := MoveAsset(moved.Then(LoadAsset(motion.id)), env, motion, storageLabel, filename);
      JournalBacked(w, r.w, id) && JournalBacked(w, r.w, motion.id)
  {
    var loadedMotion := moved.Then(LoadAsset(motion.id));
    MoveIsBacked(loadedMotion, env, motion, storageLabel, filename);
    OtherMoveKeepsBacked(w, loadedMotion, env, motion, storageLabel, filename, id);
  }

  /** The single-asset job on a live-photo still is the move of the still
      followed by the load and move of its motion part. */
  lemma LivePhotoRun(w: World, config: TemplateConfig, env: Env, id: AssetId)
    requires config.enabled && id in w.assets && w.assets[id].livePhotoVideoId.Some?
    requires var a := w.assets[id];
      var moved := MoveAsset(Begin(w).Then(LoadAsset(id)), env, a, StorageLabel(w, a.ownerId), a.originalFileName);
      a.livePhotoVideoId.value in moved.w.assets
    ensures var a := w.assets[id];
      var motionId := a.livePhotoVideoId.value;
      var storageLabel := StorageLabel(w, a.ownerId);
      var moved := MoveAsset(Begin(w).Then(LoadAsset(id)), env, a, storageLabel, a.originalFileName);
      HandleMigrationSingle(w, config, env, id)
        == JobRun(Success, MoveAsset(moved.Then(LoadAsset(motionId)), env, moved.w.assets[motionId], storageLabel, a.originalFileName))
  {
  }

  /** The single-asset job fails exactly when it is enabled and the asset, or
      the live-photo motion part it names, is missing; moving the still never
      adds or removes an asset record. */
  lemma SingleJobFailure(w: World, config: TemplateConfig, env: Env, id: AssetId)
    ensures var r := HandleMigrationSingle(w, config, env, id);
      r.status == Failed <==>
        config.enabled && (id !in w.assets
          || (w.assets[id].livePhotoVideoId.Some? && w.assets[id].livePhotoVideoId.value !in w.assets))
  {
    if config.enabled && id in w.assets && w.assets[id].livePhotoVideoId.Some? {
      var a := w.assets[id];
      var motionId := a.livePhotoVideoId.value;
      var loaded := Begin(w).Then(LoadAsset(id));
      MoveAssetKeepsKeys(loaded, env, a, StorageLabel(w, a.ownerId), a.originalFileName);
    }
  }

  lemma MoveAssetKeepsKeys(st: Run, env: Env, a: Asset, storageLabel: Option<string>, filename: string)
    requires st.Valid()
    ensures MoveAsset(st, env, a, storageLabel, filename).w.assets.Keys == st.w.assets.Keys
  {
    var r := MoveAsset(st, env, a, storageLabel, filename);
    var d := TemplatePath(st.w.fs.Keys, env.render, a, storageLabel, filename);
    MoveAssetFramed(st, env, a, storageLabel, filename);
    FrameKeepsKeys(st.w, r.w, a.id, SourceOf(st.w, a), d.path);
  }

  lemma FrameKeepsKeys(w0: World, w1: World, id: AssetId, source: Path, target: Path)
    requires MoveFrame(w0, w1, id, source, target)
    ensures w1.assets.Keys == w0.assets.Keys
  {
  }
}
