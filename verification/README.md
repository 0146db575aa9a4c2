# immich server core, modelled in Dafny

This project models four pieces of the immich photo server and proves properties of each.

1. **Storage-template relocation** (`relocation*.dfy`, `conflict.dfy`, `template.dfy`).
   - This moves an asset's original file to the path that its owner's storage template renders: `upload/library/<storage label or owner id>/<rendered>.<ext>`.
   - An occupied destination is disambiguated as `<stem>+1.<ext>`, `<stem>+2.<ext>`, and so on.
   - Each move is written to a move journal first, keyed by asset id and path type. Only then is the file renamed.
   - When the rename fails with `EXDEV` (source and destination on different filesystems), the file is copied instead. The copy is checked for size, then for checksum. It gets the original's times, and the original is deleted.
   - The asset's new path is committed only once the file is in place.
   - A later run takes up a move that the journal records but that never committed.
   - Templates are validated against the token vocabulary in `server/src/constants.ts`.
   - Every operation is a pure function that appends effects to a `Run`. Replaying the log from the start world gives the world reached, so every prefix of the log is a state the server can crash in.
2. **Media decisions** (`media_service.dfy`). These are the choices made in `media.service.ts`:
   - transcode policy and target;
   - bitrate parsing;
   - sRGB detection;
   - main-stream choice;
   - thumbnail-job planning;
   - the guards of video conversion;
   - asset-migration path kinds;
   - encoder-configuration dispatch.
3. **ffprobe normalisation** (`media_repository.dfy`). This covers:
   - the `probe` mapping from raw ffprobe data to `VideoInfo`;
   - the chroma rule of `resize`;
   - the two-pass guard of `transcode`;
   - `chainPath`.
4. **Tags** (`tags.dfy`). This covers tag lookup restricted to the owner, and add/remove of assets. Each requested id gets a verdict judged against the tag as it was before the request. Then exactly the accepted ids are applied.

`common.dfy` holds the shared helpers: option and result types, string predicates, ASCII lower-casing, filter-map, and `Number.parseInt` with no radix: ECMAScript white space, an optional sign, base 16 after `0x` or `0X`, base 10 otherwise.

The implementation of the relocation engine (`StorageTemplateService`, `StorageCore`) is not part of this model. Its behaviour is taken from the tests that fix it, in `server/src/services/storage-template.service.spec.ts`. That file's test lines are what the rows below cite.

A move journal record for an asset is *unfinished* when its new path is not the asset's current path: the move was recorded but never committed. `SourceOf` is the file the next move of the asset starts from: the record's old path if that file exists, else its new path, for an unfinished move; the asset's own path otherwise. An asset is *recoverable* when the file at `SourceOf` holds its size and checksum, and *settled* when it is recoverable, stored under its own id and has no unfinished move.

## Model

| member | source | states |
|---|---|---|
| Relocation.Extension | server/src/services/storage-template.service.spec.ts:116-119 | the extension contains no dot or slash; when it is non-empty, the path ends in `.` followed by it |
| Relocation.ExtensionEmpty | server/src/services/storage-template.service.spec.ts:116-119 | the extension is empty exactly when the path ends in `.` or every dot in it has a `/` somewhere after it |
| Relocation.LibraryFolder | server/src/services/storage-template.service.spec.ts:499-524 | the owner folder is `upload/library/<label>` when the owner has a non-empty storage label, and `upload/library/<owner id>` otherwise |
| Relocation.TemplatePath | server/src/services/storage-template.service.spec.ts:397-470 | an asset already at its rendered path or a `+N` variant stays there and probes nothing; otherwise the destination is the first free name among `stem.ext`, `stem+1.ext`, …, and every earlier probed name is occupied; the destination lies inside the owner's library folder |
| Relocation.CheckAll | server/src/services/storage-template.service.spec.ts:419-422 | probing existence changes no state; it appends exactly one existence check per candidate, in order |
| Relocation.Relocate | server/src/services/storage-template.service.spec.ts:526-629 | a rename attempt always leaves a log entry, and replaying the log from the start gives the world reached |
| Relocation.CopyFallback | server/src/services/storage-template.service.spec.ts:526-568 | the copy fallback always leaves a log entry, and replaying the log gives the world reached |
| Relocation.MoveFile | server/src/services/storage-template.service.spec.ts:129-278 | a file already at its target causes no effect at all; any other move, fresh or resumed, only extends the log, and replaying the log gives the world reached |
| Relocation.ResumeMove | server/src/services/storage-template.service.spec.ts:175-278 | resuming a recorded move always logs at least the two existence checks, and replaying the log gives the world reached |
| Relocation.MoveAsset | server/src/services/storage-template.service.spec.ts:631-650 | a read-only asset causes no effect at all |
| Relocation.HandleMigrationSingle | server/src/services/storage-template.service.spec.ts:103-114 | the job is Skipped exactly when the template is disabled, and then nothing is looked up or touched; Failed only for a missing asset or missing motion part |
| Relocation.HandleMigration | server/src/services/storage-template.service.spec.ts:384-395 | the bulk job reports Success when enabled and Skipped with no effects when disabled |
| RelocationProperties.SingleJobFailure | server/src/services/storage-template.service.spec.ts:103-174 | the single job is Failed exactly when the template is enabled and the asset, or the motion part it names, is missing |
| RelocationFindings.MoveFileAsWritten | server/src/services/storage-template.service.spec.ts:175-278 | the move that resumes every journal record it finds: it only extends the log, and a file already at its target causes no effect |
| RelocationFindings.AsWrittenDiffersOnlyOnHistory | server/src/services/storage-template.service.spec.ts:129-278 | with no record, or with an unfinished one, the move that resumes every record agrees with the corrected move |
| RelocationFindings.AsWrittenResumesOldPath | server/src/services/storage-template.service.spec.ts:175-223 | resuming a record whose old path exists renames that file to the target, commits the target as the asset's path and rewrites the record |
| RelocationFindings.HistoryRecordTakesOtherFile | server/src/services/storage-template.service.spec.ts:175-223 | when a committed record's old path now holds another asset, resuming it renames that asset's file away: the other asset is left unrecoverable and the moved asset takes its content |
| RelocationFindings.ResumedHistoryLosesFile | server/src/services/storage-template.service.spec.ts:175-223 | in the world that resumed history leaves, the moved asset has the target as its path and the other asset is unrecoverable |
| RelocationFindings.CorrectedMoveKeepsOtherFile | server/src/services/storage-template.service.spec.ts:129-278 | in the same situation the corrected move keeps the other asset's file, and the other asset stays settled and recoverable after every effect |
| RelocationFindings.HistoryWorldIsACase | server/src/services/storage-template.service.spec.ts:175-223 | a concrete world with a committed record whose old path now holds a second asset, and a free target the rename succeeds into |
| ConflictResolver.SuffixedCandidateIsAnnotated | server/src/services/storage-template.service.spec.ts:451-470 | every `+N` name the collision search produces is recognised as a duplicate annotation of the destination |
| ConflictResolver.CandidateInjective | server/src/services/storage-template.service.spec.ts:397-428 | distinct suffixes give distinct names |
| ConflictResolver.CandidateSetSize | server/src/services/storage-template.service.spec.ts:397-428 | the first `k+1` candidate names are `k+1` different names |
| ConflictResolver.CandidatesOccupied | server/src/services/storage-template.service.spec.ts:397-428 | all of the first `n+1` candidates being occupied needs at least `n+1` files, so the search ends |
| ConflictResolver.FreeSuffix | server/src/services/storage-template.service.spec.ts:397-428 | the chosen suffix names a free file, and every smaller suffix names an occupied one |
| ConflictResolver.Probes | server/src/services/storage-template.service.spec.ts:419-422 | the probed names are the candidates `0..k`, in order |
| RelocationFrame.ApplyFrame | server/src/services/storage-template.service.spec.ts:526-568 | every effect a move may perform leaves the users and every other journal key as they were, changes the asset record at most by giving the asset the target as its path, writes no file but the target, and removes no file but the source and the target |
| RelocationFrame.CopyRejected | server/src/services/storage-template.service.spec.ts:280-325 | a copy failing its size or hash check is deleted, and the world is as before without the target |
| RelocationFrame.CopyAccepted | server/src/services/storage-template.service.spec.ts:526-568 | a copy passing both checks replaces the source, keeps the source's times, and commits the target as the asset's path |
| RelocationFrame.RelocateFrame | server/src/services/storage-template.service.spec.ts:526-629 | a move changes only the source, the target and the asset's path, and every other file survives unchanged; a committed move has the content at the target and none at the source; an uncommitted one keeps the source unchanged |
| RelocationFrame.ResumeMoveFrame | server/src/services/storage-template.service.spec.ts:175-278 | resuming a recorded move is framed like a fresh move whose source is the record's old path when that file exists and its new path otherwise; a commit is backed by a journal record of the move to the target, whose old path is gone |
| RelocationFrame.FreshMoveFileFrame | server/src/services/storage-template.service.spec.ts:129-157 | with no unfinished move on record, whether a record exists or not, a move to a free target is framed with the asset's own path as its source; a committed move is backed by the journal record of exactly that move |
| RelocationFrame.MoveFileFrame | server/src/services/storage-template.service.spec.ts:129-278 | moving to a free target is framed with `SourceOf` as its source; a committed move is backed by the journal record of exactly that move |
| RelocationFrame.MoveAssetFrame | server/src/services/storage-template.service.spec.ts:472-524 | moving an asset touches nothing but its record, its journal key, its source (`SourceOf`) and its destination, and every other file survives unchanged; a changed record differs only by taking the destination as its path |
| RelocationFrame.MoveAssetPermitted | server/src/services/storage-template.service.spec.ts:472-650 | for any asset, loaded or not, every effect its move appends is one the frame permits for that asset, its `SourceOf` and its destination |
| RelocationFrame.PermittedFramed | server/src/services/storage-template.service.spec.ts:472-650 | replaying any stretch of permitted effects, between any two positions of the log, is framed |
| RelocationFrame.MoveAssetFramed | server/src/services/storage-template.service.spec.ts:472-650 | for any asset, loaded or not, the world before its move and the world after are framed |
| RelocationSafety.RenameRecoverable | server/src/services/storage-template.service.spec.ts:129-157 | after a journaled rename to a free target, whatever its outcome, the file the journal points to holds the asset's content |
| RelocationSafety.CopyRecoverable | server/src/services/storage-template.service.spec.ts:526-568 | a copy leaves the journaled source intact |
| RelocationSafety.UnlinkSourceRecoverable | server/src/services/storage-template.service.spec.ts:526-568 | once the verified copy is in place, deleting the source leaves the copy as the file the journal resumes from |
| RelocationSafety.CopyFallbackSafe | server/src/services/storage-template.service.spec.ts:526-568 | every intermediate state of the copy fallback leaves the asset recoverable |
| RelocationSafety.CommitSafe | server/src/services/storage-template.service.spec.ts:526-568 | once a checked copy holds the content, carrying the times over, deleting the source and committing the path keeps the asset recoverable at every step |
| RelocationSafety.RelocateSafe | server/src/services/storage-template.service.spec.ts:526-629 | every intermediate state of a journaled move leaves the asset recoverable |
| RelocationSafety.JournalWriteSafe | server/src/services/storage-template.service.spec.ts:357-369 | creating or updating the journal record keeps the asset recoverable, and the record then names the move |
| RelocationSafety.MoveFileSafe | server/src/services/storage-template.service.spec.ts:175-278 | fresh and resumed moves keep the asset recoverable at every step |
| RelocationSafety.MoveAssetSafe | server/src/services/storage-template.service.spec.ts:129-278 | crash safety: a recoverable asset stays recoverable after every single effect of its move, and so does every other settled asset whose path is not the move's source |
| RelocationSafety.OtherAssetsStaySafe | server/src/services/storage-template.service.spec.ts:129-278 | moving one asset keeps another settled asset, whose path is not the move's source, recoverable after every effect; afterwards it is still settled, its record is unchanged and its file is unchanged |
| RelocationSafety.FrameKeepsSettled | server/src/services/storage-template.service.spec.ts:129-278 | a framed step keeps another settled asset, whose path is neither the source nor the target, settled, with its record and its file unchanged |
| RelocationProperties.FreshMoveRenames | server/src/services/storage-template.service.spec.ts:129-157 | a fresh move creates the journal record (old path, target), then renames, then commits the target; the files move accordingly |
| RelocationProperties.CommittedRecordRestarts | server/src/services/storage-template.service.spec.ts:129-223 | a record whose move has committed (its new path is the asset's path) is history: the next move checks nothing, rewrites the record as (asset path, target), renames from the asset's own path and commits |
| RelocationProperties.ResumeFromOldPath | server/src/services/storage-template.service.spec.ts:175-223 | an unfinished recorded move whose old path still exists checks both ends, updates (not creates) the record from the old path, renames and commits |
| RelocationProperties.ResumeFromNewPath | server/src/services/storage-template.service.spec.ts:224-278 | an unfinished recorded move whose old path is gone resumes from the new path after the size check and the hash check pass, updating the record |
| RelocationProperties.ResumeRejected | server/src/services/storage-template.service.spec.ts:327-381 | a leftover with the wrong size or checksum causes no rename, copy, journal update or commit; the hash is read only when the size matched |
| RelocationProperties.ResumeNothingLeft | server/src/services/storage-template.service.spec.ts:175-278 | an unfinished recorded move with no file at either end changes nothing |
| RelocationProperties.AcceptedCopyLog | server/src/services/storage-template.service.spec.ts:526-568 | a good copy is: copy, stat, hash, stat the source, set times, unlink the source, commit, in this order |
| RelocationProperties.CrossDeviceMoveCommits | server/src/services/storage-template.service.spec.ts:526-568 | `EXDEV` then a good copy: journal, rename, copy, size check, hash check, times, one unlink of the source, commit; the target has the copy with the source's times |
| RelocationProperties.CrossDeviceSizeMismatch | server/src/services/storage-template.service.spec.ts:570-603 | `EXDEV` then a copy of the wrong size: the copy is deleted without hashing, and the asset keeps its path and files |
| RelocationProperties.CrossDeviceHashMismatch | server/src/services/storage-template.service.spec.ts:280-325 | `EXDEV` then a copy with the wrong hash: only the copy is deleted, once, and the asset keeps its path and files |
| RelocationProperties.RenameFailureKeepsPath | server/src/services/storage-template.service.spec.ts:605-629 | any other rename failure leaves only the journal record, kept for a retry |
| RelocationProperties.FreeDestinationTaken | server/src/services/storage-template.service.spec.ts:472-497 | a free rendered destination is taken as it is, with one probe |
| RelocationProperties.OccupiedDestinationGetsSuffix | server/src/services/storage-template.service.spec.ts:397-428 | an occupied destination becomes `<stem>+1.<ext>` when that is free, after probing both |
| RelocationProperties.PlacedAssetNotMoved | server/src/services/storage-template.service.spec.ts:430-470 | an asset already at its destination or at a `+N` variant has no effect at all |
| RelocationProperties.DestinationIsPlaced | server/src/services/storage-template.service.spec.ts:430-470 | any destination chosen counts as placed for the same asset: its extension and rendering do not change |
| RelocationProperties.MoveAssetIdempotent | server/src/services/storage-template.service.spec.ts:430-449 | once a move has committed, running it again with the same template does nothing |
| RelocationProperties.CommittedMoveHoldsContent | server/src/services/storage-template.service.spec.ts:472-568 | after a committed move, the asset's new path holds its content, and only the path changed in the record |
| RelocationProperties.MoveAssetKeepsOthers | server/src/services/storage-template.service.spec.ts:631-650 | moving one asset leaves the users, every other asset record and every read-only asset unchanged; every file but the move's source survives unchanged; every other settled asset not at that source stays settled |
| RelocationProperties.MoveAssetKeepsKeys | server/src/services/storage-template.service.spec.ts:631-650 | moving any asset, loaded or not, neither adds nor removes an asset record |
| RelocationProperties.MigrateEachKeeps | server/src/services/storage-template.service.spec.ts:384-395 | the bulk loop leaves read-only assets and assets not listed unchanged |
| RelocationProperties.BulkNeverMovesReadOnly | server/src/services/storage-template.service.spec.ts:631-650 | the bulk job never changes a read-only asset |
| RelocationProperties.LivePhotoBothJournaled | server/src/services/storage-template.service.spec.ts:116-174 | migrating a live-photo still loads and migrates its motion part too; each part that moves is backed by its own journal record |
| RelocationProperties.LivePhotoLog | server/src/services/storage-template.service.spec.ts:116-174 | the live-photo job succeeds, loads the still first and loads the motion part later in the same run |
| RelocationProperties.LivePhotoBacked | server/src/services/storage-template.service.spec.ts:116-174 | after the live-photo job both the still and the motion part are journal-backed |
| StorageTemplate.ParseUnparse | server/src/services/storage-template.service.spec.ts:74-99 | compiling a template loses nothing: the segments spell the text back |
| StorageTemplate.UnparseParse | server/src/services/storage-template.service.spec.ts:74-99 | writing well-formed segments out and compiling them gives the same segments |
| StorageTemplate.TokenNames | server/src/constants.ts:40-66 | a name is listed exactly when some segment is a token with that name |
| StorageTemplate.FirstUnknown | server/src/constants.ts:40-46 | no name is reported exactly when every name is known; otherwise the first unknown name is reported |
| StorageTemplate.Validate | server/src/services/storage-template.service.spec.ts:74-99 | a template is accepted exactly when it compiles and all its tokens are known; an accepted template spells itself; a compilable rejected one names an unknown token |
| StorageTemplate.ErrorMessage | server/src/services/storage-template.service.spec.ts:88-99 | every rejection message starts with "Invalid storage template" |
| StorageTemplate.PresetsAreValid | server/src/constants.ts:47-66 | every preset compiles to its segments, uses only date tokens, `filename`, `assetId` and `album`, and validates |
| StorageTemplate.PresetShape | server/src/constants.ts:47-66 | every preset is relative and ends in `/{{filename}}` or `/{{assetId}}`; all but the album preset start with `{{y}}` |
| StorageTemplate.ValidateCompiled | server/src/services/storage-template.service.spec.ts:74-99 | a well-formed template validates exactly when all its tokens are known, and then gives back its segments |
| StorageTemplate.ValidationAcceptsExample | server/src/services/storage-template.service.spec.ts:74-86 | a template using every asset token and one token of each date group is accepted |
| StorageTemplate.ValidationRejectsExample | server/src/services/storage-template.service.spec.ts:88-99 | `{{foo}}` is rejected, naming `foo`, with an "Invalid storage template" message |
| StorageTemplate.DateGroupsDisjoint | server/src/constants.ts:40-46 | the seven date/time token groups share no token, compared case-sensitively |
| MediaRepository.ToVideoStream | server/src/repositories/media.repository.ts:61-73 | `h265` becomes `hevc`, and no other codec name changes; HDR holds exactly for the PQ and HLG transfers |
| MediaRepository.ToAudioStream | server/src/repositories/media.repository.ts:74-81 | the index, type and codec name of an audio stream pass through |
| MediaRepository.MissingFieldsAreZero | server/src/repositories/media.repository.ts:65-72 | missing height, width, frame count, rotation and bitrate read as 0 |
| MediaRepository.Probe | server/src/repositories/media.repository.ts:52-83 | the format name passes through; a missing duration or bitrate is 0; video and audio streams together are no more than the raw streams |
| MediaRepository.ProbeStreams | server/src/repositories/media.repository.ts:61-81 | the stream lists are filters in input order: probing joined lists joins the results, and one stream lands only in the list of its type |
| MediaRepository.ProbeMembers | server/src/repositories/media.repository.ts:61-81 | every probed video (audio) stream comes from a raw video (audio) stream, and every such raw stream is probed |
| MediaRepository.ChromaSubsampling | server/src/repositories/media.repository.ts:47 | `4:4:4` exactly from quality 80 up, `4:2:0` below |
| MediaRepository.ChromaMonotone | server/src/repositories/media.repository.ts:47 | raising the quality never lowers chroma resolution |
| MediaRepository.Resize | server/src/repositories/media.repository.ts:38-50 | an sRGB target uses the `srgb` pipeline and anything else `rgb16`; the ICC profile is the target colorspace; chroma follows the quality rule |
| MediaRepository.Transcode | server/src/repositories/media.repository.ts:85-118 | two-pass output to a stream is refused before ffmpeg runs; otherwise one run, or a log-only first pass to `/dev/null` and a second pass, followed by removal of both pass logs |
| MediaRepository.TwoPassCleansItsOwnLog | server/src/repositories/media.repository.ts:95-112 | both passes read the same input with the same options and the log prefix of the output path, pass 1 then pass 2, and the two files removed afterwards are exactly the log and mbtree files pass 1 writes for stream 0 |
| MediaRepository.ChainPath | server/src/repositories/media.repository.ts:141-144 | the result is `existing`, then exactly one `:` unless `existing` already ends in one, then `path` |
| MediaRepository.ChainPathTwice | server/src/repositories/media.repository.ts:141-144 | chaining two entries in turn never glues the second onto the first |
| MediaService.IsAudioTranscodeRequired | server/src/services/media.service.ts:364-385 | no stream or DISABLED means no; ALL means yes; REQUIRED, OPTIMAL and BITRATE mean yes exactly when the codec is not accepted |
| MediaService.ParseBitrateToBps | server/src/services/media.service.ts:506-520 | no leading integer gives 0; otherwise the integer times 1000 for a `k`/`K` ending, times 1,000,000 for `m`/`M`, and unchanged otherwise |
| MediaService.BitrateNumber | server/src/services/media.service.ts:506-520 | a bare number reads back as itself |
| MediaService.BitrateUnit | server/src/services/media.service.ts:506-520 | a number with a unit letter in either case reads back scaled by that unit |
| MediaService.IsVideoTranscodeRequired | server/src/services/media.service.ts:387-420 | no stream or DISABLED means no; ALL means yes; REQUIRED means an unaccepted codec or HDR; OPTIMAL adds a shorter side above a numeric target resolution; BITRATE adds a bitrate above the maximum |
| MediaService.PolicyOrder | server/src/services/media.service.ts:364-420 | a more eager policy transcodes whatever a less eager one does, for video and for audio |
| MediaService.GetTranscodeTarget | server/src/services/media.service.ts:337-362 | no streams give NONE; the target covers audio exactly when audio is required and video exactly when video is required |
| MediaService.IsSrgb | server/src/services/media.service.ts:493-504 | a colorspace or profile decides by mentioning sRGB in any case; failing that, a non-zero bit depth decides by being 8; failing that, the image counts as sRGB |
| MediaService.SrgbIgnoresCase | server/src/services/media.service.ts:493-504 | lower-casing the colorspace and profile does not change the answer |
| MediaService.SrgbProfileRecognised | server/src/services/media.service.ts:493-504 | a profile starting with `sRGB` is recognised |
| MediaService.FirstMax | server/src/services/media.service.ts:333-335 | the index is the earliest position of the largest key |
| MediaService.MainStream | server/src/services/media.service.ts:333-335 | no streams give none; otherwise the first stream with the largest frame count, as a stable descending sort puts first |
| MediaService.FirstMaxUnique | server/src/services/media.service.ts:333-335 | only one index is the earliest maximum |
| MediaService.PlanThumbnails | server/src/services/media.service.ts:88-99 | forced, or no JPEG: exactly one JPEG job; otherwise no JPEG job, a WEBP job exactly when the WEBP is missing, a thumbhash job exactly when the thumbhash is missing, nothing else, and the WEBP job first when both are queued; all jobs are for the asset |
| MediaService.PlanAllAppend | server/src/services/media.service.ts:86-99 | planning page by page is planning the whole list at once |
| MediaService.ForcedPlanIsJpegOnly | server/src/services/media.service.ts:88-91 | forced planning is one JPEG job per asset, in order |
| MediaService.PlannedJobsAreForAssets | server/src/services/media.service.ts:86-99 | every planned job is for one of the assets |
| MediaService.GetCodecConfig | server/src/services/media.service.ts:422-491 | acceleration off gives the software encoder of the target codec; otherwise the configured backend, which fails with the backend and codec named exactly when it does not support the codec |
| MediaService.HandleVideoConversion | server/src/services/media.service.ts:263-331 | a missing or non-video asset, no main stream or container, or a zero dimension is FAILED with no effect; FAILED exactly for those and for an encoder configuration error on a non-NONE target; SKIPPED exactly for a NONE target, and the old encoded video is deleted and cleared only if there was one; with a valid configuration and a non-NONE target, SUCCESS exactly when the first run or the software retry succeeds, and otherwise the transcode failure is thrown; SUCCESS records the output after a transcode that succeeded; a thrown failure never records a path |
| MediaService.ConversionRuns | server/src/services/media.service.ts:298-331 | every transcode runs from the original into the encoded path for a target covering some stream; a second run follows only a failed first and uses the software encoder |
| MediaService.HandleAssetMigration | server/src/services/media.service.ts:159-170 | a missing asset is FAILED with nothing moved; an existing one is SUCCESS after moving exactly its JPEG thumbnail, WEBP thumbnail and encoded video, each once, all of that asset, and never its original |
| Common.ParseInt | server/src/repositories/media.repository.ts:69-72 | `NaN` (`None`) exactly when no digit of the chosen base follows the white space, sign and hex prefix; a decimal numeral reads as its sign times its leading digits |
| Common.ParseIntNumeral | server/src/services/media.service.ts:506-520 | a numeral followed by a non-digit reads back as its value, unless it is `0` followed by `x` or `X` |
| Common.ParseIntHex | server/src/repositories/media.repository.ts:69-72 | after `0x` or `0X`, the longest run of hexadecimal digits is read in base 16; none is `NaN` |
| Common.ParseIntReadsHex | server/src/repositories/media.repository.ts:69-72 | `0x1F` reads as 31 |
| Common.ParseIntEmptyHex | server/src/repositories/media.repository.ts:69-72 | `0xg` is `NaN`, although its `0` is a decimal digit |
| Common.ParseIntSkipsSpace | server/src/repositories/media.repository.ts:69-72 | a leading white-space character, from the full ECMAScript set, does not change the result |
| Common.ParseIntNegativeHex | server/src/repositories/media.repository.ts:69-72 | a `-` before a hex prefix negates the base-16 value |
| Common.ParseIntSkipsSpaceBeforeHex | server/src/repositories/media.repository.ts:69-72 | white space, then `-`, then a hex numeral reads as the negated base-16 value |
| Tags.FindOrFail | server/src/services/tag.service.ts:98-104 | a tag is found exactly when it exists and belongs to the user; otherwise "Tag not found" |
| Tags.GetAll | server/src/services/tag.service.ts:13-15 | exactly the user's own tags |
| Tags.GetByIdAgreesWithGetAll | server/src/services/tag.service.ts:13-20 | a tag found by id is listed, and a listed tag can be found by its key |
| Tags.Create | server/src/services/tag.service.ts:22-35 | refused, with nothing created, exactly when the user already has the name; otherwise adds one new empty tag |
| Tags.CreateKeepsNamesUnique | server/src/services/tag.service.ts:22-35 | creating keeps every user's tag names distinct |
| Tags.Update | server/src/services/tag.service.ts:37-41 | fails exactly when lookup fails; otherwise renames only that tag |
| Tags.UpdateCanDuplicateName | server/src/services/tag.service.ts:22-41 | unlike create, renaming one of a user's tags to the name of another succeeds and leaves the user with two tags of that name |
| Tags.Remove | server/src/services/tag.service.ts:43-46 | fails exactly when lookup fails; otherwise deletes only that tag |
| Tags.GetAssets | server/src/services/tag.service.ts:48-52 | fails exactly when lookup fails; otherwise gives that tag's assets |
| Tags.AddVerdicts | server/src/services/tag.service.ts:57-65 | one verdict per id, in order: success exactly when the id is not yet in the tag, DUPLICATE otherwise |
| Tags.RemoveVerdicts | server/src/services/tag.service.ts:79-87 | one verdict per id, in order: success exactly when the id is in the tag, NOT_FOUND otherwise |
| Tags.SuccessesAreAccepted | server/src/services/tag.service.ts:67-71 | the ids handed on are exactly the requested ids the verdicts accept |
| Tags.AddAssets | server/src/services/tag.service.ts:54-74 | fails exactly when lookup fails; otherwise verdicts against the tag before the call, the ids applied are exactly the new ones, and only this tag's set grows by the request |
| Tags.RemoveAssets | server/src/services/tag.service.ts:76-96 | fails exactly when lookup fails; otherwise verdicts against the tag before the call, the ids applied are exactly the present ones, and only this tag's set loses them |
| Tags.AppliedInRequestOrder | server/src/services/tag.service.ts:67-71 | the accepted ids are handed on in request order |
| Tags.RepeatedIdSameVerdict | server/src/services/tag.service.ts:58-65 | an id asked for twice in one request gets the same verdict both times |
| Tags.AddThenRemove | server/src/services/tag.service.ts:54-96 | adding then removing the same ids leaves the tag without them and the other tags unchanged |

## Left out

- The implementation of `StorageTemplateService` and `StorageCore` is not part of this model.
- A failed verification or a failed rename still ends in SUCCESS (server/src/services/storage-template.service.spec.ts:309, :371); the failure shows only as an unchanged asset path.
- Relocation.HandleMigration: the SKIPPED result of the bulk job for a disabled template has no test in server/src/services/storage-template.service.spec.ts (lines 384-395 cover only an enabled run with no assets); the model gives it the single job's answer.
- RelocationProperties.SingleJobFailure: the FAILED results for a missing asset and a missing motion part have no test in server/src/services/storage-template.service.spec.ts; the model gives them as the NotFound outcome.
- RelocationSafety.MoveAssetSafe: the safety of other assets is stated only for settled ones whose path is not the move's source. An asset with an unfinished move of its own, or one sharing the moving asset's source path, is not covered.
- RelocationProperties.MoveAssetKeepsOthers: the same limits as `MoveAssetSafe` apply to the "stays settled" part.
- Real filesystem, database, hashing and date formatting are left out. The filesystem is a map from path to size, hash and times; the database is maps of assets, users and journal records. The template renderer, the outcome of `rename` and the file a copy lands are parameters of `Env`.
- Path normalisation and sanitisation of rendered names are not modelled; the render function's output is used as it is.
- Relocation.CopyFallback: an exception thrown by the copy itself is modelled as the copy landing a wrong file, which is then deleted. It is not modelled as the job aborting.
- Relocation.Extension: Node's `extname` treatment of dotfiles such as `.bashrc` is not modelled; a leading-dot name has the text after the dot as its extension here.
- Relocation.TemplatePath: the search for a free `+N` name has no bound of its own. It ends because the candidate names are distinct and the filesystem is finite. The tests exercise only `+1`.
- Journal records are never deleted in the model; no test shows the record being removed after a commit.
- Pagination, job-queue plumbing, the person-thumbnail loop and per-asset locking are left out. They are queue and concurrency mechanics, outside the pure logic.
- `handleGenerateJpeg/Webp/Thumbhash` and `handleQueueMigration` are not modelled: they call sharp, ffmpeg and the queue.
- Common.ToLower: lower-casing is ASCII only; JavaScript's full Unicode case mapping is not modelled.
- MediaService.MainStream: a `NaN` frame count ranks as 0. JavaScript's sort with a `NaN` comparison result depends on the engine.
- Common.ParseInt: the result is an unbounded integer. The loss of precision of a JavaScript number beyond 2^53 is not modelled.
- MediaRepository.ToVideoStream: a `NaN` frame count, rotation or bitrate (`None`) is kept as `None`; what the caller does with it is outside this model.
- MediaRepository.Probe: the format duration is an integer; fractional seconds are not modelled.
- MediaService.GetCodecConfig: the codec configuration classes of `src/utils/media` (their ffmpeg arguments) are not modelled, only which one is chosen. Hardware probing (`/dev/dri`, the OpenCL check) is given as the `HwProbe` parameter.
- MediaService.HandleVideoConversion: the error thrown for an unknown accel setting cannot happen with a closed enumeration, so it has no branch.
- MediaService.HandleAssetMigration: the three moves themselves (`StorageCore.moveAssetFile`) are not part of this model; the contract states which path kinds are handed on, not the order JPEG, WEBP, ENCODED_VIDEO.
- Tags: `mapTag` and `mapAsset` (DTO mapping) are not modelled. `getById` is `FindOrFail` at the store level.
- Tags.Update: the tag entity and any unique constraint the database puts on names are not part of this model. As the service is written, `update` does not call `hasName`; `UpdateCanDuplicateName` shows what that allows.

## Findings

| source | as written | input that shows it | evidently intended | confidence | as-written member | corrected member |
|---|---|---|---|---|---|---|
| server/src/services/storage-template.service.spec.ts:175-278 | a move resumes every journal record found under the asset's id, also one whose move already committed, and starts from the record's old path when that file exists | asset `x` was moved from `a.jpg` to `b.jpg` and the record (`a.jpg`, `b.jpg`) stays; asset `y` now lives at `a.jpg`; moving `x` to `c.jpg` renames `y`'s file to `c.jpg` and points `x` at it | a record is resumed only while its move is unfinished (its new path is not the asset's path); otherwise the move starts from the asset's own path and rewrites the record | not executed; the engine's code is not part of this model, so the finding concerns the behaviour the resume tests fix | RelocationFindings.HistoryRecordTakesOtherFile | RelocationFindings.CorrectedMoveKeepsOtherFile |
