# Upload, cover rewriting and static assets of the fastshort server

This project models the core of the server's public upload route and its static-file serving, and proves properties of the model.

- **`upload`** checks an upload's extension against a fixed list. It then reads and hashes the file and stores it under a content-addressed name below `assets/`:
  - `video/<date>/<orientation>_<hash>.mp4` for a video, after an ffprobe run and a screenshot;
  - `avatar/<date>/<hash>.<ext>` for anything else, through the `uploadS3` copy helper.

  It removes the temporary file and answers with the public URL and the hash.
- **`home`** rewrites the cover URLs of each series (`replaceUrls`) and lists, in order, the categories that have at least one series.
- **The Koa application** creates the `assets` directory at start-up. It registers its middleware in a fixed order. Its custom static middleware serves `/assets/<rest>` from that directory when `<rest>` names a regular file, and calls `next()` otherwise.

**Modules:**

| module | models |
|---|---|
| `Base` | `Option`, `Result`, bytes, and two sequence facts |
| `JsString` | `startsWith`, `includes`, `indexOf` and `String.prototype.replace` with a string pattern |
| `NodePath` | POSIX `path.join`, `path.normalize` and `path.dirname` on absolute paths kept as segment lists |
| `FileSystem` | the disk as a map from paths to files and directories, and `mkdirSync` with `recursive: true` |
| `Upload` | `upload` and `uploadS3` |
| `Home` | `replaceUrls` and the category loop of `home` |
| `App` | `app.js` |

**How the handlers are modelled:**
- The handlers are methods. They thread the disk through as a value and return the log of effects they performed (read, probe, mkdir, screenshot, copy, unlink), in order.
- Every outcome the handler cannot compute is an input: the MD5 digest, ffprobe's report, ffmpeg's result, the date, the MIME lookups, and the errors of `copyFile` and `unlinkSync`.
- The replies are specified by pure functions. The effect-ordering and disk properties are stated on the log and the final disk.
- The log and the disk are tied together: replaying a method's new effects from its initial disk with `Step` gives its final disk (`Traced`).
  - A screenshot and a copy record in an `intoDir` flag whether their directory was on the disk when they ran.
  - `Traced` also demands that each such flag matches the replayed disk. A method therefore cannot claim a directory it never made.
  - The flag tests membership, as `fs.existsSync` does: any entry at that path counts, file or directory.
- Three readings of the code shape the model:
  - The temporary file is unlinked only after a successful copy, and only on the success path. When anything throws, it is left in place.
  - A failed screenshot is swallowed: it changes neither the reply nor the copy.
  - The static middleware does not confine the joined path to the static directory. `App.TraversalLeavesStaticDir` shows a request that climbs out of it.

## Model

| member | source | states |
|---|---|---|
| Upload.Upload | apps/server/route/public.js:59-149 | the reply equals `UploadResponse`; nothing is logged iff the type is rejected, and a read comes first otherwise; an unlink happens only as the last effect, after a successful copy of the temp file; a successful unlink happens iff the reply is a success; a video's screenshot is taken right before its copy; on success the temp file is gone and the stored file holds the uploaded bytes; with a digest free of `/`, every write goes into an existing directory; when naming fails the disk is unchanged; otherwise every entry other than the stored file, the screenshot and the unlinked temp file is kept, anything added is one of those or a directory on the way to the folders the upload ensures (the video and screenshot folders for a video, the target's folder otherwise), and every `mkdir` logged creates one of those folders; an avatar upload never probes or takes a screenshot; for an accepted regular video file the probe is the effect right after the read; the final disk is the log replayed from the initial disk, every write's directory flag is true to the replayed disk, and with a digest free of `/` every write finds its directory on that disk; the whole log is the read alone for an unreadable file, the read and the probe when naming fails, quiet effects ending in the failed copy after a copy error, and quiet effects, the successful copy and last the unlink otherwise |
| Upload.UploadResponse | apps/server/route/public.js:59-149 | an unaccepted type fails with the type error; an unreadable file fails with the read error; a failed probe fails with ffprobe's message; a naming error, a copy error or an unlink error is the reply's message, in that order; success iff the upload is named and neither copy nor unlink failed; the success payload's key is the name's digest and its url is `host/assets/<filename>`; the screenshot outcome is not an argument, so it cannot change the reply |
| Upload.UploadName | apps/server/route/public.js:62-94 | rejection precedes every other failure; an accepted file that is not a regular file fails with the read error; otherwise the result is `NameFor` of the extension, the probe, the date and the digest of the file's bytes |
| Upload.NameFor | apps/server/route/public.js:80-94 | for a video: a failed probe fails with its message, an empty stream list with the no-stream message, and otherwise the name uses the first stream's orientation; every other extension gets the avatar name; the name carries key and date |
| Upload.OrientationOf | apps/server/route/public.js:90-93 | vertical iff both dimensions are present and height exceeds width; a square video is horizontal |
| Upload.StoreResponse | apps/server/route/public.js:79-148 | a naming error is the reply; for a named file, a copy error is the reply, then an unlink error; success iff named and neither copy nor unlink threw, with the url and key of the name |
| Upload.StoreAndRemove | apps/server/route/public.js:79-140 | the reply is `StoreResponse` of the name; the log extends the one before; unlink only after copy; a successful unlink iff success; an attempted unlink iff named and copied; the copy (and for a video the screenshot right before it) is in the log; on success the temp file is gone and the target holds its bytes; writes go into existing directories; a naming error leaves the disk unchanged; otherwise only the stored file, the screenshot and the unlinked temp file change, besides new directories on the way to the ensured folders, and every `mkdir` logged creates one of those folders; a non-video never probes or takes a screenshot; a video's first new effect is the probe; the new effects replay from the old disk to the new one with true directory flags; a naming error logs only the probe; a copy error ends the log in the failed copy after quiet effects; otherwise quiet effects, the successful copy and last the unlink are logged |
| Upload.Store | apps/server/route/public.js:80-132 | the url (or the thrown message) for each branch; a failed probe leaves the disk unchanged; otherwise the log continues with quiet effects and ends in the copy to the stored path; the screenshot precedes a video's copy; the copy's content; directories are ready before writes; only the stored file and the screenshot change, besides new directories on the way to the ensured folders, and every `mkdir` logged creates one of those folders; a non-video never probes or takes a screenshot; a video's first new effect is the probe; the new effects replay from the old disk to the new one with true directory flags |
| Upload.StoreVideo | apps/server/route/public.js:80-127 | probe failure or an empty stream list throws before any directory or file is touched; otherwise the copy goes to `assets/video/<date>/<orientation>_<hash>.mp4` after the screenshot, the url names that file, and only that file and the screenshot change, besides new directories on the way to the video and screenshot folders; the probe is the first new effect, and every `mkdir` logged creates one of those two folders; the new effects replay from the old disk to the new one with true directory flags |
| Upload.ShootAndCopy | apps/server/route/public.js:97-126 | the log ends in the copy, right after the screenshot; the copy's content; if the screenshot and the target sit in the two ensured directories, every write finds its directory; only a taken screenshot and a successful copy's target change, besides new directories on the way to the two ensured folders, and every `mkdir` logged creates one of them; the new effects replay from the old disk to the new one with true directory flags |
| Upload.ShootLog | apps/server/route/public.js:97-126 | a log of at most two mkdirs, a screenshot and a copy ends in that copy with the screenshot just before it, keeps writes inside ready directories, and creates only the two ensured folders |
| Upload.ShotThenCopyLog | apps/server/route/public.js:97-126 | mkdirs, then a screenshot, then a copy: the log ends in the copy, the screenshot is second to last, and ready directories stay ready |
| Upload.ShootFrame | apps/server/route/public.js:97-126 | two directory creations, a screenshot and a copy change only what the screenshot and the copy write, besides new directories on the way to the two ensured folders; a successful copy of a source other than the screenshot holds the source's original content |
| Upload.ConfinedTrans | apps/server/route/public.js:79-135 | two steps in a row touch only what either of them touches, and add only directories on the way to the folders either of them ensures |
| Upload.ConfinedCopyFailed | apps/server/route/public.js:126-148 | after a failed copy the handler has touched only what storing touched, with the same ensured folders |
| Upload.ConfinedUnlink | apps/server/route/public.js:126-135 | storing, then unlinking the temp file, touches the stored files and the temp file only, and adds only directories on the way to the ensured folders |
| Upload.CopyFailedLog | apps/server/route/public.js:126-148 | a store whose copy failed logs no unlink, keeps unlink-only-after-copy, and has logged the failed copy (after the screenshot, for a video) |
| Upload.UnlinkLog | apps/server/route/public.js:126-135 | unlinking after a successful copy keeps the earlier log as a prefix, comes after the copy, is a successful unlink iff it succeeded, and keeps the screenshot-then-copy pair, the ready directories and the absence of video effects; the log is quiet effects, the successful copy and last the unlink |
| Upload.MkDirsWithinSplit | apps/server/route/public.js:80-126 | the mkdirs of a log that continues another are those of both stretches |
| Upload.MkDirsWithinAppend | apps/server/route/public.js:135 | appending an effect that is not a `mkdir` keeps the first new effect and creates no folder |
| Upload.MkDirsWithinCons | apps/server/route/public.js:74-79 | a log that starts with the read makes only the mkdirs of the rest |
| Upload.Confined | apps/server/route/public.js:27-135 | Definition, no contract: untouched entries keep their value, and an added untouched entry is a directory on the way to one of the ensured folders |
| Upload.StoreDirs | apps/server/route/public.js:21-106 | Definition, no contract: the video and screenshot folders for a video, the target's folder otherwise |
| Upload.MkDirsWithin | apps/server/route/public.js:21-106 | Definition, no contract: every `mkdir` of a log creates one of the given folders |
| Upload.NoVideoEffectsAppend | apps/server/route/public.js:135 | appending an effect that is neither a probe nor a screenshot keeps a log free of them |
| Upload.EnsureDir | apps/server/route/public.js:97-106 | an existing directory changes nothing; a missing one is created with `mkdir -p` and logged; afterwards it exists; no entry changed and every added entry is a directory on the way to it; the effect replays from the old disk to the new one |
| Upload.EnsureAndCopy | apps/server/route/public.js:27-37 | ensures the target's directory, then copies: the log ends in the copy, which finds its directory; the content arrives; only the target changes, besides new directories on the way to its folder; the only `mkdir` logged creates that folder; no probe or screenshot is logged; the new effects replay from the old disk to the new one with true directory flags |
| Upload.CopyLog | apps/server/route/public.js:27-37 | at most one `mkdir`, then the copy: the log ends in that copy, holds no probe or screenshot, keeps writes inside ready directories, and creates only the copy's folder |
| Upload.TakeScreenshot | apps/server/route/public.js:109-123 | the screenshot is logged with whether its folder existed; the new disk is the old one with the frame at `<hash>.png` when it was taken, and the old one unchanged when it failed; its flag is true to the old disk |
| Upload.CopyFile | apps/server/route/public.js:37 | the copy is logged with its outcome and whether the target's directory existed; the new disk is the old one with the source's content at the target after a successful copy, and the old one unchanged after a failed one; its flag is true to the old disk |
| Upload.CopyIntoAssets | apps/server/route/public.js:18-49 | returns `host/assets/<filename>` or the copy's error; the target directory is ensured, then the file copied to `assets/<filename>`; that copy finds its directory; the content arrives; only the target changes (after a successful copy), besides new directories on the way to the target's folder; the only `mkdir` logged creates that folder; no probe or screenshot is logged; the new effects replay from the old disk to the new one with true directory flags |
| Upload.RemoveTemp | apps/server/route/public.js:135 | the unlink is logged; the new disk is the old one without the temp file after a successful unlink, and unchanged after a failed one; the unlink replays from the old disk to the new one |
| Upload.CopyThenUnlink | apps/server/route/public.js:126-135 | a log that ends in a successful copy of the temp file and then unlinks it satisfies unlink-only-after-copy |
| Upload.CopyKeepsNoUnlink | apps/server/route/public.js:79-132 | storing adds no unlink |
| Upload.QuietThenCopy | apps/server/route/public.js:97-126 | effects that neither copy nor remove, followed by a copy, end in that copy |
| Upload.QuietPrefix | apps/server/route/public.js:82-126 | the probe before the copy does not change which copy ends the log |
| Upload.ReadyExtend | apps/server/route/public.js:27-30 | appending an effect that writes only into an existing directory keeps every write inside ready directories |
| Upload.EndsInCopyCopied | apps/server/route/public.js:126 | the final copy is among the logged copies |
| Upload.ShotWitness | apps/server/route/public.js:109-126 | a screenshot second to last before the final copy is a screenshot taken right before that copy |
| Upload.ShotThenCopyKept | apps/server/route/public.js:126-135 | unlinking after the copy keeps the screenshot-then-copy pair |
| Upload.ReplaySplit | apps/server/route/public.js:79-135 | replaying a log that continues another is replaying the first, then the rest; its flags are true iff both stretches' flags are |
| Upload.TracedStep | apps/server/route/public.js:37 | one effect whose flag is true to the disk takes the disk to `Step` of it |
| Upload.TracedNone | apps/server/route/public.js:98-105 | no effects leave the disk as it is |
| Upload.TracedTrans | apps/server/route/public.js:79-135 | two traced stretches in a row form one |
| Upload.TracedChain | apps/server/route/public.js:97-126 | four traced stretches in a row form one |
| Upload.TracedFromStart | apps/server/route/public.js:59-149 | a traced log that starts from nothing replays, as a whole, to the final disk |
| Upload.ReadyOnDiskFrom | apps/server/route/public.js:98-126 | when the flags of a log's tail are true to the replayed disk, they are all set iff every write of that tail finds its directory on the replayed disk |
| Upload.ReadyOnDisk | apps/server/route/public.js:98-126 | the same for a whole log |
| Upload.ProbeFailedLog | apps/server/route/public.js:82-87 | a failed probe is the only effect of storing: no copy and no unlink, and ready directories stay ready |
| Upload.FailedReply | apps/server/route/public.js:79-148 | a failed store is answered with its error, and then no copy succeeded |
| Upload.StoredReply | apps/server/route/public.js:127-140 | a successful store is answered with its url and key, or with the unlink's error |
| Upload.UnlinkedContent | apps/server/route/public.js:126-135 | after a successful unlink the temp file is gone, and the stored copy, when it is another file, keeps the uploaded bytes |
| Upload.CopiedThenUnlinked | apps/server/route/public.js:126-135 | Definition, no contract: quiet effects, a successful copy and last the unlink of the copied file |
| Upload.CopiedThenUnlinkedSplit | apps/server/route/public.js:126-135 | a copy then an unlink is exactly a log ending in that copy, followed by the unlink, in both directions |
| Upload.Accepted | apps/server/route/public.js:62-66 | Definition, no contract: the MIME-derived extension is one of `jpg`, `jpge`, `jpeg`, `png`, `webp`, `mp4` |
| Upload.Filename | apps/server/route/public.js:94-130 | Definition, no contract: `video/<date>/<leaf>` for a video, `avatar/<date>/<hash>.<ext>` otherwise; its properties are the round-trip lemmas |
| Upload.OrientationName | apps/server/route/public.js:93 | Definition, no contract: `vertical` or `horizontal` |
| Upload.IsHexDigest | apps/server/route/public.js:75 | Definition, no contract: every character is a lowercase hexadecimal digit, as `digest('hex')` writes them |
| Upload.VideoLeaf | apps/server/route/public.js:94 | Definition, no contract: `<orientation>_<hash>.mp4` |
| Upload.AssetUrl | apps/server/route/public.js:127 | Definition, no contract: `host/assets/<filename>` |
| Upload.StoredAt | apps/server/route/public.js:126 | Definition, no contract: `path.join(cwd, 'assets', filename)` |
| Upload.VideoDir | apps/server/route/public.js:97 | Definition, no contract: `path.join(cwd, 'assets/video', date)` |
| Upload.ScreenshotDir | apps/server/route/public.js:103 | Definition, no contract: `path.join(cwd, 'assets/screenshots')` |
| Upload.ShotAt | apps/server/route/public.js:120-121 | Definition, no contract: `<hash>.png` directly in the screenshot folder |
| Upload.Replay | apps/server/route/public.js:59-149 | Definition, no contract: the disk after a log's effects, applied in order with `Step` |
| Upload.Step | apps/server/route/public.js:74-135 | Definition, no contract: the disk after one effect; a failed screenshot, copy or unlink changes nothing |
| Upload.FilenameRoundTrip | apps/server/route/public.js:94-130 | a stored filename with a one-segment date and a hex digest reads back into the date, orientation or extension, and digest it was built from |
| Upload.VideoFilenameRoundTrip | apps/server/route/public.js:94 | the video path reads back into its name |
| Upload.AvatarFilenameRoundTrip | apps/server/route/public.js:130 | the avatar path reads back into its name |
| Upload.VideoRoundTrip | apps/server/route/public.js:94 | `<date>/<orientation>_<hash>.mp4` reads back into date, orientation and digest |
| Upload.VideoLeafRoundTrip | apps/server/route/public.js:94 | `<orientation>_<hash>.mp4` reads back into orientation and digest |
| Upload.AvatarRoundTrip | apps/server/route/public.js:130 | `<date>/<hash>.<ext>` reads back into date, digest and extension |
| Upload.FilenameInjective | apps/server/route/public.js:94-130 | two well-formed names give the same filename iff they are equal |
| Upload.DistinctKeysDistinctPaths | apps/server/route/public.js:94-130 | uploads with different digests never share a stored path |
| Upload.SameContentSameName | apps/server/route/public.js:74-94 | identical bytes of the same type on the same date (with the same orientation) get the same name |
| Upload.ReplyKeyInUrl | apps/server/route/public.js:127-140 | a successful reply's url is `host/assets/` followed by a filename whose embedded digest is the reply's key |
| Upload.VideoLeafClean | apps/server/route/public.js:94 | a video's leaf is a single path segment when the digest has no `/` |
| Upload.StoredVideoPath | apps/server/route/public.js:126 | `path.join(cwd, 'assets', filename)` of a video is the join of `assets/video/<date>/<leaf>` |
| Upload.VideoDirPath | apps/server/route/public.js:97 | `path.join(cwd, 'assets/video', date)` is the normalisation of `assets/video/<date>`, also for an empty date |
| Upload.VideoDirUndated | apps/server/route/public.js:97 | the trailing `/` of `assets/video/` changes no segment |
| Upload.VideoDirOfTarget | apps/server/route/public.js:94-126 | the directory of the copied video is the video directory the handler ensured |
| Upload.ShotDirOf | apps/server/route/public.js:103-121 | the screenshot lands directly in `assets/screenshots`, with no date bucket |
| Home.ReplaceUrls | apps/server/route/public.js:256-263 | id and category are kept; a non-array cover leaves the document untouched; an array cover keeps its length |
| Home.RewriteUrl | apps/server/route/public.js:259 | Definition, no contract: `url.replace(localOrigin, host)`, the first occurrence only |
| Home.ReplaceUrlsEach | apps/server/route/public.js:258-260 | a URL without the local origin is unchanged; in one with it, exactly the first occurrence becomes the host |
| Home.OnlyFirstReplaced | apps/server/route/public.js:259 | a second occurrence of the local origin survives the rewrite, shifted by the change in length |
| Home.LaterOccurrenceShifts | apps/server/route/public.js:259 | replacing one occurrence moves a later one by the change in length |
| Home.InCategory | apps/server/route/public.js:277-283 | the query returns exactly the series of the category, each from the collection; a one-document collection gives that document iff it is of the category |
| Home.InCategoryAppend | apps/server/route/public.js:277-283 | the series of a concatenated collection are those of the first part followed by those of the second, so the query keeps collection order |
| Home.SeriesOf | apps/server/route/public.js:277-286 | the first `min(10, n)` series of the category, in collection order, each with its covers rewritten; empty iff the collection has none of it |
| Home.Kept | apps/server/route/public.js:275-294 | never more entries than categories; every entry has between one and ten series (one entry per category and category order follow from `Home.KeptAppend`) |
| Home.EntryFor | apps/server/route/public.js:289-292 | Definition, no contract: the category's name with its rewritten series |
| Home.KeptAppend | apps/server/route/public.js:276-294 | the entries of consecutive category lists are concatenated, so category order is kept |
| Home.KeptExactly | apps/server/route/public.js:288-293 | a category is listed iff some series belongs to it |
| Home.KeptStep | apps/server/route/public.js:276-293 | visiting one more category appends its entry exactly when it has series |
| Home.CollectCategories | apps/server/route/public.js:275-294 | the loop builds exactly `Kept` of the categories |
| App.StaticDecision | apps/server/app.js:33-46 | a path outside `/assets/` passes on; a request is served iff the joined path is a regular file; a served reply carries that file, its whole content, and the MIME lookup or `application/octet-stream` |
| App.AssetTarget | apps/server/app.js:35 | Definition, no contract: the request path after `/assets/`, joined onto the static directory |
| App.JwtExempt | apps/server/app.js:66-74 | Definition, no contract: the two exact paths, the two unanchored patterns and paths below `/assets/` |
| App.Handle | apps/server/app.js:20-79 | Definition, no contract: the static middleware answers a served request, the JWT check refuses a request off the list without a valid token, the router answers the rest |
| App.StaticMiddleware | apps/server/app.js:33-46 | `next()` is called iff the decision passes on; a served request sets `ctx.type` and `ctx.body`; otherwise `ctx` is untouched |
| App.Context.constructor | apps/server/app.js:33 | a fresh context has the request path, no type and no body |
| App.PrepareStaticDir | apps/server/app.js:23-30 | the static directory is `cwd/assets` and exists afterwards; no existing entry changed; the disk is unchanged when `cwd/assets` already existed, and is `mkdir -p` of it otherwise |
| App.Run | apps/server/app.js:20-79 | the middleware that ran are a prefix of the stack from that point, and at least one ran |
| App.Dispatch | apps/server/app.js:20-79 | Definition, no contract: the middleware stack run from the first entry, with the static middleware's decision on the request; its properties are the lemmas below |
| App.ServedAssetShortCircuits | apps/server/app.js:33-46 | a served asset runs only CORS and the static middleware |
| App.StaticServes | apps/server/app.js:20-46 | the same, for the static middleware's decision |
| App.OthersReachJwt | apps/server/app.js:45-79 | any other request runs CORS through the logger and reaches the JWT check, which refuses it unless it is exempt or carries a valid token; an admitted one reaches the router |
| App.PassOnReachesJwt | apps/server/app.js:45-79 | the same, for the static middleware's decision |
| App.FromJwt | apps/server/app.js:65-79 | from the JWT check on: refused without a valid token off the `unless` list, routed otherwise |
| App.PassesTo | apps/server/app.js:45-63 | middleware that all call `next()` appear in registration order in the trace |
| App.AssetsNeverUnauthorized | apps/server/app.js:65-75 | a request below `/assets/` is never refused for a missing token, served or not |
| App.TraversalLeavesStaticDir | apps/server/app.js:35-38 | `/assets/../secret` resolves to `cwd/secret`, outside the static directory, and is served when a regular file is there |
| App.ClimbingTarget | apps/server/app.js:35 | the request `/assets/../secret` joins `..` and `secret` onto the static directory |
| App.UploadedAssetIsServed | apps/server/app.js:33-41 | a file stored by the upload handler as `assets/<filename>` is what `/assets/<filename>` resolves to, and it is served with its content |
| JsString.ReplaceFirst | apps/server/route/public.js:259 | without an occurrence the string is unchanged; otherwise only the first occurrence is replaced, with `$` patterns expanded |
| JsString.ReplaceFirstLiteral | apps/server/route/public.js:259 | with a replacement free of `$`, the first occurrence is replaced by it verbatim |
| JsString.SubstitutionLiteral | apps/server/route/public.js:259 | a replacement free of `$` is inserted as it is |
| JsString.Substitution | apps/server/route/public.js:259 | Definition, no contract: the `$$`, `$&`, `` $` `` and `$'` patterns of `String.prototype.replace` |
| JsString.StartsWith | apps/server/app.js:34 | Definition, no contract: `s.startsWith(p)` |
| JsString.Contains | apps/server/app.js:70-71 | Definition, no contract: `p` occurs somewhere in `s`, which is what the unanchored patterns of the `unless` list test |
| JsString.IndexOf | apps/server/route/public.js:259 | the result is the first occurrence, or none iff the pattern does not occur |
| JsString.IndexOfFrom | apps/server/route/public.js:259 | the first occurrence at or after a position, or none |
| NodePath.PathJoin | apps/server/app.js:23 | joining onto a clean directory gives clean segments |
| NodePath.Dirname | apps/server/route/public.js:21 | the directory plus the last segment is the path |
| NodePath.JoinArgs | apps/server/route/public.js:20 | Definition, no contract: the arguments after the base, without the empty ones, joined by `/` |
| NodePath.Normalize | apps/server/app.js:35 | normalising from clean segments keeps them clean |
| NodePath.Split | apps/server/app.js:35 | at least one piece, none containing `/` |
| NodePath.LastSlash | apps/server/app.js:35 | the last `/`, or none iff there is none |
| NodePath.SplitConcat | apps/server/route/public.js:126 | splitting `a/b` is splitting `a` then `b` |
| NodePath.NormalizeConcat | apps/server/route/public.js:33 | normalising a concatenation continues from the first part's result |
| NodePath.NormalizeClean | apps/server/route/public.js:20 | clean segments are kept verbatim |
| NodePath.DotDotPops | apps/server/app.js:35 | a `..` after a segment removes it |
| NodePath.JoinNested | apps/server/route/public.js:20-33 | `path.join(path.join(cwd, 'assets'), filename)` is `path.join(cwd, 'assets', filename)` |
| NodePath.JoinCleanLeaf | apps/server/route/public.js:120-121 | joining one clean segment appends it and `dirname` takes it off |
| NodePath.DirnameOfJoin | apps/server/route/public.js:21 | the directory of `dir/leaf` is the join of `dir` |
| NodePath.SameJoinArgs | apps/server/route/public.js:126 | arguments that join to the same text give the same path |
| FileSystem.Exists | apps/server/app.js:36 | Definition, no contract: `fs.existsSync`; a path with a trailing `/` exists only as a directory |
| FileSystem.IsRegularFile | apps/server/app.js:36-38 | Definition, no contract: `existsSync` and `statSync(p).isFile()` |
| FileSystem.MkDirs | apps/server/app.js:29 | the directory exists afterwards |
| FileSystem.MkDirsKeeps | apps/server/route/public.js:29 | `mkdirSync` never changes or removes an existing entry |
| FileSystem.MkDirsCreates | apps/server/route/public.js:29 | every entry it adds is a directory on the way to the target, and all of those exist afterwards |

## Left out

- The MD5 digest (`createHash('md5')`) is the `hash` parameter. The properties that rely on its shape assume lowercase hex, or at least no `/`.
- ffprobe and the ffmpeg screenshot run are their outcomes (`Probe`, `Shot`). ffmpeg's filename tokens and the frame itself are not modelled.
- `mime.extension` and `mime.lookup` are inputs.
- `dayjs().format('YYYYMMDD')` is one `date` input. The handler calls it at most twice per request (lines 94 and 97 of `apps/server/route/public.js` for a video, line 130 for anything else); a day boundary between the two calls is not modelled.
- `mkdirSync` and `readFileSync` failures, permissions and symbolic links are not modelled. An unreadable file is any path that is not a regular file, and its error message is an input.
- A request without a multipart `file` field (which throws before the extension check) is not modelled.
- Streaming (`createReadStream`) is not modelled; a served body is the whole content.
- There is no HTTP Range or partial-content path in the code, so none is modelled.
- CORS, `koaBody`, `bodyParser` and the logger are modelled only as middleware that call `next()`. JWT verification is a `validToken` flag.
- The Mongo queries are inputs:
  - the category list;
  - the series collection, in the database's order;
  - `find({category})` is a filter that keeps collection order.

  The recommend and release lists of `home` and the other Mongo-backed handlers are not modelled.
- Home.ReplaceUrls: `data.cover` is reassigned in place and the same object is returned. The model returns the updated document as a value, so aliasing of the original document is not captured. A cover element that is not a string (on which `replace` would throw) is not modelled.
- Home.ReplaceUrlsEach: stated for hosts without `$`. `ReplaceFirst` itself models the `$` patterns.
- Upload.Upload: the directory-readiness property is stated for digests without `/`, which every hex digest satisfies.
- Upload.Upload: the stored-content property excludes a temporary file that coincides with the target or the screenshot path.
- The static middleware has no check that the joined path stays below the static directory (`App.TraversalLeavesStaticDir`). The model follows the code here, although a confining check would be the expected behaviour of an asset server.
- Each request is modelled alone. Other requests can run at the handler's awaits (lines 82, 109, 126 and 131 of `apps/server/route/public.js`) and change the disk in between. The final-disk and replay properties hold only for a request that runs without such interleaving.
- Console logging and the existence checks made only for logging (`uploadS3`'s `existsSync(targetPath)` calls) are not modelled.
