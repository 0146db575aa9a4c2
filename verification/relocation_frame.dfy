/** What a move leaves alone. Moving one asset touches no user, no other
    asset's record, no other journal key, writes no file other than its
    destination and deletes no file other than its source and destination.
    Each function is taken apart effect by effect, and every effect a move
    logs is shown to be one such a move may perform, so the frame holds in
    every state the move passes through. */
module RelocationFrame {
  import opened Common
  import opened ConflictResolver
  import opened Relocation

  /** The effects a move of asset `id` from `source` to `target` may perform. */
  predicate Permitted(e: Effect, id: AssetId, source: Path, target: Path) {
    match e
    case JournalCreate(k, _) => k == JournalKey(id, Original)
    case JournalUpdate(k, _) => k == JournalKey(id, Original)
    case Rename(from, to, _) => from == source && to == target
    case CopyFile(from, to, _) => from == source && to == target
    case SetTimes(p, _, _) => p == target
    case UpdateAssetPath(i, p) => i == id && p == target
    case LoadAsset(_) => true
    case CheckExists(_) => true
    case Stat(_) => true
    case HashFile(_) => true
    case Unlink(p) => p == source || p == target
  }

  lemma ApplyFrame(w: World, e: Effect, id: AssetId, source: Path, target: Path)
    requires Permitted(e, id, source, target)
    ensures MoveFrame(w, Apply(w, e), id, source, target)
  {
    var w' := Apply(w, e);
    if e.Rename? && e.outcome == Renamed && e.from in w.fs {
      assert w'.fs == (w.fs - {e.from})[target := w.fs[e.from]];
    }
  }

  lemma FrameTrans(w0: World, w1: World, w2: World, id: AssetId, source: Path, target: Path)
    requires MoveFrame(w0, w1, id, source, target) && MoveFrame(w1, w2, id, source, target)
    ensures MoveFrame(w0, w2, id, source, target)
  {
    var key := JournalKey(id, Original);
    forall k | k != key
      ensures (k in w2.journal <==> k in w0.journal) && (k in w0.journal ==> w2.journal[k] == w0.journal[k])
    {
    }
    forall p | p in w2.fs && p != target
      ensures p in w0.fs && w2.fs[p] == w0.fs[p]
    {
    }
    forall p | p in w0.fs && p != source && p != target
      ensures p in w2.fs
    {
    }
    if w1.assets != w0.assets && w2.assets != w1.assets {
      UpdatePathTwice(w0, w1, id, target);
    }
  }

  /** Pointing an asset at the path it already has changes nothing. */
  lemma UpdatePathTwice(w0: World, w1: World, id: AssetId, target: Path)
    requires w1.assets == Apply(w0, UpdateAssetPath(id, target)).assets
    ensures Apply(w1, UpdateAssetPath(id, target)).assets == w1.assets
  {
    if id in w0.assets {
      assert w1.assets[id] == w0.assets[id].(originalPath := target);
    }
  }

  /** A permitted effect after a framed stretch of a run keeps the frame. */
  lemma ThenFrame(w0: World, st: Run, e: Effect, id: AssetId, source: Path, target: Path)
    requires st.Valid() && MoveFrame(w0, st.w, id, source, target) && Permitted(e, id, source, target)
    ensures MoveFrame(w0, st.Then(e).w, id, source, target)
  {
    ApplyFrame(st.w, e, id, source, target);
    FrameTrans(w0, st.w, st.Then(e).w, id, source, target);
  }

  lemma FrameRefl(w: World, id: AssetId, source: Path, target: Path)
    ensures MoveFrame(w, w, id, source, target)
  {
  }

  lemma {:induction false} CheckAllFrame(st: Run, paths: seq<Path>)
    requires st.Valid()
    ensures CheckAll(st, paths).w == st.w
  {
  }

  /** A copy that fails its size or hash check is deleted again: the files are
      as before, less anything that sat at the target. */
  lemma CopyRejected(st: Run, env: Env, a: Asset, source: Path, target: Path)
    requires st.Valid() && source in st.w.fs && source != target
    requires var landed := env.copy(source, target);
      landed.size != a.fileSizeInByte || landed.hash != a.checksum
    ensures CopyFallback(st, env, a, source, target).w == st.w.(fs := st.w.fs - {target})
  {
    var landed := env.copy(source, target);
    var sized := st.Then(CopyFile(source, target, landed)).Then(Stat(target));
    assert sized.w == st.w.(fs := st.w.fs[target := landed]);
    var r := if landed.size != a.fileSizeInByte then sized.Then(Unlink(target)) else sized.Then(HashFile(target)).Then(Unlink(target));
    assert CopyFallback(st, env, a, source, target) == r;
    assert r.w.fs == st.w.fs[target := landed] - {target} == st.w.fs - {target};
  }

  /** Copying and checking the copy leaves the landed file at the target and
      changes nothing else. */
  lemma CopyChecked(st: Run, env: Env, source: Path, target: Path)
    requires st.Valid()
    ensures var landed := env.copy(source, target);
      st.Then(CopyFile(source, target, landed)).Then(Stat(target)).Then(HashFile(target)).w
        == st.w.(fs := st.w.fs[target := landed])
  {
  }

  /** Committing a checked copy gives it the source's times, deletes the source
      and points the asset at the target. */
  lemma CopyCommitted(h: Run, id: AssetId, source: Path, target: Path, original: FileInfo)
    requires h.Valid() && target in h.w.fs && source != target
    ensures var kept := h.w.fs[target].(atime := original.atime, mtime := original.mtime);
      h.Then(Stat(source)).Then(SetTimes(target, original.atime, original.mtime)).Then(Unlink(source)).Then(UpdateAssetPath(id, target)).w
        == Apply(h.w.(fs := (h.w.fs - {source})[target := kept]), UpdateAssetPath(id, target))
  {
    var kept := h.w.fs[target].(atime := original.atime, mtime := original.mtime);
    var timed := h.Then(Stat(source)).Then(SetTimes(target, original.atime, original.mtime));
    assert timed.w == h.w.(fs := h.w.fs[target := kept]);
    var unlinked := timed.Then(Unlink(source));
    assert unlinked.w.fs == (h.w.fs - {source})[target := kept];
  }

  /** A copy that passes both checks replaces the source, keeping its times,
      and the asset takes the target as its path. */
  lemma CopyAccepted(st: Run, env: Env, a: Asset, source: Path, target: Path)
    requires st.Valid() && source in st.w.fs && source != target
    requires var landed := env.copy(source, target);
      landed.size == a.fileSizeInByte && landed.hash == a.checksum
    ensures var landed := env.copy(source, target);
      var original := st.w.fs[source];
      CopyFallback(st, env, a, source, target).w
        == Apply(st.w.(fs := (st.w.fs - {source})[target := landed.(atime := original.atime, mtime := original.mtime)]),
                 UpdateAssetPath(a.id, target))
  {
    var landed := env.copy(source, target);
    var hashed := st.Then(CopyFile(source, target, landed)).Then(Stat(target)).Then(HashFile(target));
    CopyChecked(st, env, source, target);
    var original := st.w.fs[source];
    CopyCommitted(hashed, a.id, source, target, original);
    var kept := landed.(atime := original.atime, mtime := original.mtime);
    assert (hashed.w.fs - {source})[target := kept] == (st.w.fs - {source})[target := kept];
  }

  lemma RejectedFrame(w: World, id: AssetId, source: Path, target: Path)
    ensures MoveFrame(w, w.(fs := w.fs - {target}), id, source, target)
  {
  }

  lemma AcceptedFrame(w: World, a: Asset, source: Path, target: Path, f: FileInfo)
    requires a.id in w.assets && w.assets[a.id].originalPath != target && source != target
    requires f.size == a.fileSizeInByte && f.hash == a.checksum
    ensures var w' := Apply(w.(fs := (w.fs - {source})[target := f]), UpdateAssetPath(a.id, target));
      MoveFrame(w, w', a.id, source, target) && w'.assets != w.assets && Holds(w', target, a) && source !in w'.fs
      && w'.journal == w.journal
  {
    var w' := Apply(w.(fs := (w.fs - {source})[target := f]), UpdateAssetPath(a.id, target));
    assert w'.assets[a.id].originalPath == target;
  }

  lemma CopyFallbackFrame(st: Run, env: Env, a: Asset, source: Path, target: Path)
    requires st.Valid() && source in st.w.fs && source != target
    requires a.id in st.w.assets && st.w.assets[a.id].originalPath != target
    ensures var r := CopyFallback(st, env, a, source, target);
      && MoveFrame(st.w, r.w, a.id, source, target)
      && r.w.journal == st.w.journal
      && (r.w.assets != st.w.assets ==> Holds(r.w, target, a) && source !in r.w.fs)
      && (r.w.assets == st.w.assets ==> source in r.w.fs && r.w.fs[source] == st.w.fs[source])
  {
    var landed := env.copy(source, target);
    var w1 := CopyFallback(st, env, a, source, target).w;
    if landed.size != a.fileSizeInByte || landed.hash != a.checksum {
      CopyRejected(st, env, a, source, target);
      RejectedFrame(st.w, a.id, source, target);
    } else {
      CopyAccepted(st, env, a, source, target);
      var original := st.w.fs[source];
      AcceptedFrame(st.w, a, source, target, landed.(atime := original.atime, mtime := original.mtime));
    }
  }

  /** A move of a file changes nothing but the source, the target and, when
      the move completes, the asset's path. A completed move leaves the file
      at the target and none at the source. */
  lemma RelocateFrame(st: Run, env: Env, a: Asset, source: Path, target: Path)
    requires st.Valid() && a.id in st.w.assets && st.w.assets[a.id].originalPath != target
    ensures var r := Relocate(st, env, a, source, target);
      && MoveFrame(st.w, r.w, a.id, source, target)
      && r.w.journal == st.w.journal
      && (r.w.assets != st.w.assets ==> target in r.w.fs && (source != target ==> source !in r.w.fs))
      && (r.w.assets != st.w.assets && Holds(st.w, source, a) ==> Holds(r.w, target, a))
      && (r.w.assets == st.w.assets && source in st.w.fs && source != target ==>
            source in r.w.fs && r.w.fs[source] == st.w.fs[source])
  {
    var w0 := st.w;
    FrameRefl(w0, a.id, source, target);
    var outcome :=
      if source !in w0.fs then RenameFailed
      else if source == target then Renamed
      else env.rename(source, target);
    var renamed := st.Then(Rename(source, target, outcome));
    ThenFrame(w0, st, Rename(source, target, outcome), a.id, source, target);
    match outcome
    case Renamed =>
      ThenFrame(w0, renamed, UpdateAssetPath(a.id, target), a.id, source, target);
      if source in w0.fs {
        assert renamed.w.fs == (w0.fs - {source})[target := w0.fs[source]];
        assert target in renamed.w.fs && renamed.w.fs[target] == w0.fs[source];
        assert source != target ==> source !in renamed.w.fs;
      }
    case RenameFailed =>
    case CrossDevice =>
      CopyFallbackFrame(renamed, env, a, source, target);
      FrameTrans(w0, renamed.w, Relocate(st, env, a, source, target).w, a.id, source, target);
  }

  /** After a journal write for the move of `a` to `target`, the rest of the
      move is framed, and a completed move leaves the record's old path free
      and the target occupied. */
  lemma RecordedRelocateFrame(w0: World, st: Run, e: Effect, env: Env, a: Asset, source: Path, target: Path)
    requires st.Valid() && MoveFrame(w0, st.w, a.id, source, target) && st.w.assets == w0.assets
    requires a.id in w0.assets && w0.assets[a.id].originalPath != target
    requires e == JournalCreate(JournalKey(a.id, Original), MoveRecord(source, target))
          || e == JournalUpdate(JournalKey(a.id, Original), MoveRecord(source, target))
    requires source in st.w.fs && target !in st.w.fs
    ensures var r := Relocate(st.Then(e), env, a, source, target);
      && MoveFrame(w0, r.w, a.id, source, target)
      && JournalKey(a.id, Original) in r.w.journal
      && r.w.journal[JournalKey(a.id, Original)] == MoveRecord(source, target)
      && (r.w.assets != w0.assets ==> target in r.w.fs && source !in r.w.fs)
  {
    var logged := st.Then(e);
    ThenFrame(w0, st, e, a.id, source, target);
    RelocateFrame(logged, env, a, source, target);
    FrameTrans(w0, logged.w, Relocate(logged, env, a, source, target).w, a.id, source, target);
  }

  /** Resuming a recorded move is framed like a fresh one, with the file the
      resumption starts from as its source. */
  lemma ResumeMoveFrame(st: Run, env: Env, a: Asset, target: Path)
    requires st.Valid() && JournalKey(a.id, Original) in st.w.journal
    requires a.id in st.w.assets && st.w.assets[a.id].originalPath != target && target !in st.w.fs
    ensures var r := ResumeMove(st, env, a, target);
      var key := JournalKey(a.id, Original);
      var m := st.w.journal[key];
      && MoveFrame(st.w, r.w, a.id, if m.oldPath in st.w.fs then m.oldPath else m.newPath, target)
      && (r.w.assets != st.w.assets ==>
            key in r.w.journal && r.w.journal[key].newPath == target
            && r.w.journal[key].oldPath !in r.w.fs && target in r.w.fs)
  {
    var w0 := st.w;
    var key := JournalKey(a.id, Original);
    var m := w0.journal[key];
    var source := if m.oldPath in w0.fs then m.oldPath else m.newPath;
    FrameRefl(w0, a.id, source, target);
    var first := st.Then(CheckExists(m.oldPath));
    ThenFrame(w0, st, CheckExists(m.oldPath), a.id, source, target);
    var checked := first.Then(CheckExists(m.newPath));
    ThenFrame(w0, first, CheckExists(m.newPath), a.id, source, target);
    if m.oldPath in w0.fs {
      RecordedRelocateFrame(w0, checked, JournalUpdate(key, MoveRecord(m.oldPath, target)), env, a, m.oldPath, target);
    } else if m.newPath in w0.fs {
      var found := w0.fs[m.newPath];
      var sized := checked.Then(Stat(m.newPath));
      ThenFrame(w0, checked, Stat(m.newPath), a.id, source, target);
      var hashed := sized.Then(HashFile(m.newPath));
      ThenFrame(w0, sized, HashFile(m.newPath), a.id, source, target);
      if found.size == a.fileSizeInByte && found.hash == a.checksum {
        RecordedRelocateFrame(w0, hashed, JournalUpdate(key, MoveRecord(m.newPath, target)), env, a, m.newPath, target);
      }
    }
  }

  /** The frame of a move with no unfinished journal record: it starts from
      the asset's own path. */
  lemma FreshMoveFileFrame(st: Run, env: Env, a: Asset, target: Path)
    requires st.Valid() && a.id in st.w.assets && st.w.assets[a.id] == a
    requires target != a.originalPath && target !in st.w.fs
    requires !Unfinished(st.w, a)
    ensures var r := MoveFile(st, env, a, target);
      var key := JournalKey(a.id, Original);
      && MoveFrame(st.w, r.w, a.id, a.originalPath, target)
      && (r.w.assets != st.w.assets ==>
            key in r.w.journal && r.w.journal[key].newPath == target
            && r.w.journal[key].oldPath !in r.w.fs && target in r.w.fs)
  {
    var key := JournalKey(a.id, Original);
    var record := MoveRecord(a.originalPath, target);
    var e := if key !in st.w.journal then JournalCreate(key, record) else JournalUpdate(key, record);
    assert MoveFile(st, env, a, target) == Relocate(st.Then(e), env, a, a.originalPath, target);
    FrameRefl(st.w, a.id, a.originalPath, target);
    if a.originalPath in st.w.fs {
      RecordedRelocateFrame(st.w, st, e, env, a, a.originalPath, target);
    } else {
      var logged := st.Then(e);
      ThenFrame(st.w, st, e, a.id, a.originalPath, target);
      RelocateFrame(logged, env, a, a.originalPath, target);
      FrameTrans(st.w, logged.w, Relocate(logged, env, a, a.originalPath, target).w, a.id, a.originalPath, target);
    }
  }

  /** Moving a file to a free target is framed, with the file the move starts
      from as its source; a completed move is backed by the journal record of
      exactly that move. */
  lemma MoveFileFrame(st: Run, env: Env, a: Asset, target: Path)
    requires st.Valid() && a.id in st.w.assets && st.w.assets[a.id] == a
    requires target != a.originalPath ==> target !in st.w.fs
    ensures var r := MoveFile(st, env, a, target);
      var key := JournalKey(a.id, Original);
      && MoveFrame(st.w, r.w, a.id, SourceOf(st.w, a), target)
      && (r.w.assets != st.w.assets ==>
            key in r.w.journal && r.w.journal[key].newPath == target
            && r.w.journal[key].oldPath !in r.w.fs && target in r.w.fs)
  {
    if a.originalPath == target {
      FrameRefl(st.w, a.id, SourceOf(st.w, a), target);
    } else if !Unfinished(st.w, a) {
      FreshMoveFileFrame(st, env, a, target);
    } else {
      ResumeMoveFrame(st, env, a, target);
    }
  }

  lemma UpdatePathAssets(w: World, a: Asset, p: Path)
    requires a.id in w.assets && w.assets[a.id] == a
    ensures Apply(w, UpdateAssetPath(a.id, p)).assets == w.assets[a.id := a.(originalPath := p)]
  {
  }

  /** The frame of probing the destination's candidates and then moving the
      file there. */
  lemma ProbedMoveFrame(st: Run, env: Env, a: Asset, d: Destination)
    requires st.Valid() && a.id in st.w.assets && st.w.assets[a.id] == a
    requires d.path != a.originalPath ==> d.path !in st.w.fs
    ensures var r := MoveFile(CheckAll(st, d.probed), env, a, d.path);
      var key := JournalKey(a.id, Original);
      && MoveFrame(st.w, r.w, a.id, SourceOf(st.w, a), d.path)
      && (r.w.assets != st.w.assets ==>
            r.w.assets == st.w.assets[a.id := a.(originalPath := d.path)]
            && key in r.w.journal && r.w.journal[key].newPath == d.path
            && r.w.journal[key].oldPath !in r.w.fs && d.path in r.w.fs)
  {
    var checked := CheckAll(st, d.probed);
    CheckAllFrame(st, d.probed);
    MoveFileFrame(checked, env, a, d.path);
    UpdatePathAssets(st.w, a, d.path);
  }

  /** Moving an asset touches nothing but its own record, its own journal key,
      the file it starts from and its destination. A changed record has the
      destination as its path, and the journal records that move with its
      source gone. */
  lemma MoveAssetFrame(st: Run, env: Env, a: Asset, storageLabel: Option<string>, filename: string)
    requires st.Valid() && a.id in st.w.assets && st.w.assets[a.id] == a
    ensures var d := TemplatePath(st.w.fs.Keys, env.render, a, storageLabel, filename);
      var r := MoveAsset(st, env, a, storageLabel, filename);
      var key := JournalKey(a.id, Original);
      && MoveFrame(st.w, r.w, a.id, SourceOf(st.w, a), d.path)
      && (r.w.assets != st.w.assets ==>
            r.w.assets == st.w.assets[a.id := a.(originalPath := d.path)]
            && key in r.w.journal && r.w.journal[key].newPath == d.path
            && r.w.journal[key].oldPath !in r.w.fs && d.path in r.w.fs)
  {
    var d := TemplatePath(st.w.fs.Keys, env.render, a, storageLabel, filename);
    if a.isReadOnly {
      FrameRefl(st.w, a.id, SourceOf(st.w, a), d.path);
    } else {
      ProbedMoveFrame(st, env, a, d);
    }
  }

  /** Every effect of the run's log from position `from` on is one a move of
      asset `id` from `source` to `target` may perform. */
  ghost predicate PermittedFrom(r: Run, from: nat, id: AssetId, source: Path, target: Path) {
    from <= |r.log| && forall i :: from <= i < |r.log| ==> Permitted(r.log[i], id, source, target)
  }

  lemma ThenPermitted(st: Run, e: Effect, from: nat, id: AssetId, source: Path, target: Path)
    requires st.Valid() && PermittedFrom(st, from, id, source, target) && Permitted(e, id, source, target)
    ensures PermittedFrom(st.Then(e), from, id, source, target)
  {
    var r := st.Then(e);
    forall i | from <= i < |r.log|
      ensures Permitted(r.log[i], id, source, target)
    {
      if i < |st.log| {
        assert r.log[i] == st.log[i];
      }
    }
  }

  lemma CheckAllPermitted(st: Run, paths: seq<Path>, from: nat, id: AssetId, source: Path, target: Path)
    requires st.Valid() && PermittedFrom(st, from, id, source, target)
    ensures PermittedFrom(CheckAll(st, paths), from, id, source, target)
  {
    var r := CheckAll(st, paths);
    forall i | from <= i < |r.log|
      ensures Permitted(r.log[i], id, source, target)
    {
      if i < |st.log| {
        assert r.log[i] == r.log[..|st.log|][i];
      } else {
        assert r.log[|st.log| + (i - |st.log|)] == CheckExists(paths[i - |st.log|]);
      }
    }
  }

  lemma CopyFallbackPermitted(st: Run, env: Env, a: Asset, source: Path, target: Path, from: nat)
    requires st.Valid() && source in st.w.fs && source != target
    requires PermittedFrom(st, from, a.id, source, target)
    ensures PermittedFrom(CopyFallback(st, env, a, source, target), from, a.id, source, target)
  {
    var landed := env.copy(source, target);
    var copied := st.Then(CopyFile(source, target, landed));
    ThenPermitted(st, CopyFile(source, target, landed), from, a.id, source, target);
    var sized := copied.Then(Stat(target));
    ThenPermitted(copied, Stat(target), from, a.id, source, target);
    if landed.size != a.fileSizeInByte {
      ThenPermitted(sized, Unlink(target), from, a.id, source, target);
    } else {
      var hashed := sized.Then(HashFile(target));
      ThenPermitted(sized, HashFile(target), from, a.id, source, target);
      if landed.hash != a.checksum {
        ThenPermitted(hashed, Unlink(target), from, a.id, source, target);
      } else {
        var original := st.w.fs[source];
        var statted := hashed.Then(Stat(source));
        ThenPermitted(hashed, Stat(source), from, a.id, source, target);
        var timed := statted.Then(SetTimes(target, original.atime, original.mtime));
        ThenPermitted(statted, SetTimes(target, original.atime, original.mtime), from, a.id, source, target);
        var unlinked := timed.Then(Unlink(source));
        ThenPermitted(timed, Unlink(source), from, a.id, source, target);
        ThenPermitted(unlinked, UpdateAssetPath(a.id, target), from, a.id, source, target);
      }
    }
  }

  lemma RelocatePermitted(st: Run, env: Env, a: Asset, source: Path, target: Path, from: nat)
    requires st.Valid() && PermittedFrom(st, from, a.id, source, target)
    ensures PermittedFrom(Relocate(st, env, a, source, target), from, a.id, source, target)
  {
    var outcome :=
      if source !in st.w.fs then RenameFailed
      else if source == target then Renamed
      else env.rename(source, target);
    var renamed := st.Then(Rename(source, target, outcome));
    ThenPermitted(st, Rename(source, target, outcome), from, a.id, source, target);
    match outcome
    case Renamed =>
      ThenPermitted(renamed, UpdateAssetPath(a.id, target), from, a.id, source, target);
    case RenameFailed =>
    case CrossDevice =>
      CopyFallbackPermitted(renamed, env, a, source, target, from);
  }

  lemma ResumeMovePermitted(st: Run, env: Env, a: Asset, target: Path, from: nat)
    requires st.Valid() && JournalKey(a.id, Original) in st.w.journal
    requires var m := st.w.journal[JournalKey(a.id, Original)];
      PermittedFrom(st, from, a.id, if m.oldPath in st.w.fs then m.oldPath else m.newPath, target)
    ensures var m := st.w.journal[JournalKey(a.id, Original)];
      PermittedFrom(ResumeMove(st, env, a, target), from, a.id, if m.oldPath in st.w.fs then m.oldPath else m.newPath, target)
  {
    var key := JournalKey(a.id, Original);
    var m := st.w.journal[key];
    var source := if m.oldPath in st.w.fs then m.oldPath else m.newPath;
    var first := st.Then(CheckExists(m.oldPath));
    ThenPermitted(st, CheckExists(m.oldPath), from, a.id, source, target);
    var checked := first.Then(CheckExists(m.newPath));
    ThenPermitted(first, CheckExists(m.newPath), from, a.id, source, target);
    var e := JournalUpdate(key, MoveRecord(source, target));
    if m.oldPath in st.w.fs {
      ThenPermitted(checked, e, from, a.id, source, target);
      RelocatePermitted(checked.Then(e), env, a, source, target, from);
    } else if m.newPath in st.w.fs {
      var found := st.w.fs[m.newPath];
      var sized := checked.Then(Stat(m.newPath));
      ThenPermitted(checked, Stat(m.newPath), from, a.id, source, target);
      if found.size == a.fileSizeInByte {
        var hashed := sized.Then(HashFile(m.newPath));
        ThenPermitted(sized, HashFile(m.newPath), from, a.id, source, target);
        if found.hash == a.checksum {
          ThenPermitted(hashed, e, from, a.id, source, target);
          RelocatePermitted(hashed.Then(e), env, a, source, target, from);
        }
      }
    }
  }

  lemma MoveFilePermitted(st: Run, env: Env, a: Asset, target: Path, from: nat)
    requires st.Valid() && PermittedFrom(st, from, a.id, SourceOf(st.w, a), target)
    ensures PermittedFrom(MoveFile(st, env, a, target), from, a.id, SourceOf(st.w, a), target)
  {
    var key := JournalKey(a.id, Original);
    var record := MoveRecord(a.originalPath, target);
    if a.originalPath == target {
    } else if !Unfinished(st.w, a) {
      var e := if key !in st.w.journal then JournalCreate(key, record) else JournalUpdate(key, record);
      assert MoveFile(st, env, a, target) == Relocate(st.Then(e), env, a, a.originalPath, target);
      ThenPermitted(st, e, from, a.id, a.originalPath, target);
      RelocatePermitted(st.Then(e), env, a, a.originalPath, target, from);
    } else {
      ResumeMovePermitted(st, env, a, target, from);
    }
  }

  /** Every effect a move of `a` logs is one a move from the file it starts
      from to its destination may perform. */
  lemma MoveAssetPermitted(st: Run, env: Env, a: Asset, storageLabel: Option<string>, filename: string)
    requires st.Valid()
    ensures var d := TemplatePath(st.w.fs.Keys, env.render, a, storageLabel, filename);
      PermittedFrom(MoveAsset(st, env, a, storageLabel, filename), |st.log|, a.id, SourceOf(st.w, a), d.path)
  {
    if !a.isReadOnly {
      var d := TemplatePath(st.w.fs.Keys, env.render, a, storageLabel, filename);
      var source := SourceOf(st.w, a);
      CheckAllPermitted(st, d.probed, |st.log|, a.id, source, d.path);
      MoveFilePermitted(CheckAll(st, d.probed), env, a, d.path, |st.log|);
    }
  }

  /** A stretch of a run made of permitted effects is framed from its first
      state to every later one. */
  lemma {:induction false} PermittedFramed(r: Run, from: nat, k: nat, id: AssetId, source: Path, target: Path)
    requires r.Valid() && PermittedFrom(r, from, id, source, target) && from <= k <= |r.log|
    ensures MoveFrame(Replay(r.start, r.log, from), Replay(r.start, r.log, k), id, source, target)
    decreases k
  {
    if k == from {
      FrameRefl(Replay(r.start, r.log, from), id, source, target);
    } else {
      PermittedFramed(r, from, k - 1, id, source, target);
      ApplyFrame(Replay(r.start, r.log, k - 1), r.log[k - 1], id, source, target);
      FrameTrans(Replay(r.start, r.log, from), Replay(r.start, r.log, k - 1), Replay(r.start, r.log, k), id, source, target);
    }
  }

  /** Every move of an asset, whatever its record, is framed from its first
      state to its last. */
  lemma MoveAssetFramed(st: Run, env: Env, a: Asset, storageLabel: Option<string>, filename: string)
    requires st.Valid()
    ensures var d := TemplatePath(st.w.fs.Keys, env.render, a, storageLabel, filename);
      MoveFrame(st.w, MoveAsset(st, env, a, storageLabel, filename).w, a.id, SourceOf(st.w, a), d.path)
  {
    var r := MoveAsset(st, env, a, storageLabel, filename);
    var d := TemplatePath(st.w.fs.Keys, env.render, a, storageLabel, filename);
    MoveAssetPermitted(st, env, a, storageLabel, filename);
    PermittedFramed(r, |st.log|, |r.log|, a.id, SourceOf(st.w, a), d.path);
    PassesThrough(st, r);
    assert Replay(r.start, r.log, |r.log|) == r.w;
  }
}
