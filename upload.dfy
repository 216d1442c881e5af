/**
 * The upload handler of the public routes and its local-copy helper.
 *
 * An upload is checked against a fixed list of extensions, read and hashed,
 * stored under a content-addressed name below `assets/`, and answered with
 * the public URL of the stored file and its hash. Everything the handler
 * learns from outside (the MIME lookup, the digest, the date, ffprobe and
 * ffmpeg, the outcome of copying and unlinking) is an input here; what the
 * handler does to the disk is returned as a log of effects, together with
 * the disk those effects leave behind.
 */
module Upload {
  import opened Base
  import opened JsString
  import opened NodePath
  import opened FileSystem

  /** The accepted extensions, compared exactly (the list has the misspelling "jpge"). */
  const AcceptedExts: seq<string> := ["jpg", "jpge", "jpeg", "png", "webp", "mp4"]
  const VideoExt := "mp4"
  const ScreenshotFolder := "assets/screenshots"
  /** The reply to an upload whose type is not accepted ("wrong file type"). */
  const TypeErrorMsg := "文件类型错误"
  /** The message of the TypeError thrown when ffprobe reports no stream at all. */
  const NoStreamMsg := "Cannot read properties of undefined (reading 'height')"

  datatype Orientation = Vertical | Horizontal

  function OrientationName(o: Orientation): string {
    match o
    case Vertical => "vertical"
    case Horizontal => "horizontal"
  }

  /** One stream of an ffprobe report; streams without a picture have no width or height. */
  datatype Stream = Stream(width: Option<int>, height: Option<int>)

  /** What ffprobe reports, or the error it calls back with. */
  datatype Probe = Probed(streams: seq<Stream>) | ProbeFailed(msg: string)

  /** What the ffmpeg screenshot run produces: the frame, or the error it emits. */
  datatype Shot = ShotTaken(png: seq<byte>) | ShotFailed(msg: string)

  /** Outcomes of the calls the handler makes whose results the model does not compute. */
  datatype Env = Env(
    readError: string,            // message of readFileSync's error when the temp file cannot be read
    probe: Probe,
    copyError: Option<string>,    // copyFile rejects with this message
    unlinkError: Option<string>)  // unlinkSync throws with this message

  /** The multipart file: where the body parser left it, and `mime.extension` of its MIME type. */
  datatype UploadedFile = UploadedFile(tmp: FsPath, ext: Option<string>)

  /** The JSON reply: `success(ctx, {url, key})` or `fail(ctx, message)`. */
  datatype Response = Success(url: string, key: string) | Fail(msg: string)

  /**
   * What the handler does to the disk, in order. A write records whether
   * the directory it writes into existed at that moment (`intoDir`).
   */
  datatype Effect =
    | Read(path: FsPath)
    | RunProbe(path: FsPath)
    | MkDir(path: FsPath)
    | Screenshot(src: FsPath, dst: FsPath, shot: Shot, intoDir: bool)
    | Copy(src: FsPath, dst: FsPath, ok: bool, intoDir: bool)
    | Unlink(path: FsPath, ok: bool)

  /** The content-addressed name of a stored upload, relative to `assets/`. */
  datatype StoredName =
    | VideoName(date: string, orientation: Orientation, key: string)
    | AvatarName(date: string, key: string, ext: string)

  // ---------------------------------------------------------------- names

  function Filename(n: StoredName): string {
    match n
    case VideoName(date, o, key) => "video/" + date + "/" + VideoLeaf(o, key)
    case AvatarName(date, key, ext) => "avatar/" + date + "/" + key + "." + ext
  }

  /** `${orientation}_${hash}.mp4` */
  function VideoLeaf(o: Orientation, key: string): string {
    OrientationName(o) + "_" + key + "." + VideoExt
  }

  /** `${config.app.host}/assets/${filename}` */
  function AssetUrl(host: string, filename: string): string {
    host + "/assets/" + filename
  }

  /** Where the upload is copied: `path.join(process.cwd(), 'assets', filename)`. */
  function StoredAt(cwd: seq<string>, filename: string): FsPath {
    PathJoin(cwd, ["assets", filename])
  }

  /** The directory of the day's videos: `path.join(process.cwd(), 'assets/video', date)`. */
  function VideoDir(cwd: seq<string>, date: string): FsPath {
    PathJoin(cwd, ["assets/video", date])
  }

  /** `path.join(process.cwd(), 'assets/screenshots')` */
  function ScreenshotDir(cwd: seq<string>): FsPath {
    PathJoin(cwd, [ScreenshotFolder])
  }

  /** Where ffmpeg writes the frame: `path.join(screenshotDir, hash + '.png')`, with no date bucket. */
  function ShotAt(cwd: seq<string>, key: string): FsPath {
    PathJoin(ScreenshotDir(cwd).segs, [key + ".png"])
  }

  predicate Accepted(ext: Option<string>) {
    ext.Some? && ext.value in AcceptedExts
  }

  /** A video is vertical when its first stream is taller than wide; a square one is horizontal. */
  function OrientationOf(s: Stream): (o: Orientation)
    ensures o == Vertical <==> s.width.Some? && s.height.Some? && s.height.value > s.width.value
    ensures s.width.Some? && s.height.Some? && s.height.value == s.width.value ==> o == Horizontal
  {
    // In JavaScript a comparison with `undefined` is false.
    if s.width.Some? && s.height.Some? && s.height.value > s.width.value then Vertical else Horizontal
  }

  /** The name an accepted, readable upload gets, or the error the video branch throws first. */
  function NameFor(ext: string, probe: Probe, date: string, key: string): (r: Result<StoredName>)
    ensures r.Ok? ==> r.value.key == key && r.value.date == date
    ensures r.Ok? && ext == VideoExt ==>
      probe.Probed? && |probe.streams| > 0 && r.value == VideoName(date, OrientationOf(probe.streams[0]), key)
    ensures ext != VideoExt ==> r == Ok(AvatarName(date, key, ext))
    ensures ext == VideoExt && probe.ProbeFailed? ==> r == Err(probe.msg)
    ensures ext == VideoExt && probe.Probed? && |probe.streams| == 0 ==> r == Err(NoStreamMsg)
    ensures ext == VideoExt && probe.Probed? && |probe.streams| > 0 ==>
      r == Ok(VideoName(date, OrientationOf(probe.streams[0]), key))
  {
    if ext == VideoExt then
      match probe
      case ProbeFailed(msg) => Err(msg)
      case Probed(streams) =>
        if |streams| == 0 then Err(NoStreamMsg)
        else Ok(VideoName(date, OrientationOf(streams[0]), key))
    else Ok(AvatarName(date, key, ext))
  }

  /** The stored name of an upload, or the message of the first failure before anything is stored. */
  function UploadName(file: UploadedFile, disk: Disk, readError: string, probe: Probe,
                      hash: seq<byte> -> string, date: string): (r: Result<StoredName>)
    ensures !Accepted(file.ext) ==> r == Err(TypeErrorMsg)
    ensures r.Ok? ==> Accepted(file.ext) && IsRegularFile(disk, file.tmp)
    ensures r.Ok? ==> r.value.key == hash(disk[file.tmp.segs].content) && r.value.date == date
    ensures Accepted(file.ext) && !IsRegularFile(disk, file.tmp) ==> r == Err(readError)
    ensures Accepted(file.ext) && IsRegularFile(disk, file.tmp) ==>
      r == NameFor(file.ext.value, probe, date, hash(disk[file.tmp.segs].content))
  {
    if !Accepted(file.ext) then Err(TypeErrorMsg)
    else if !IsRegularFile(disk, file.tmp) then Err(readError)
    else NameFor(file.ext.value, probe, date, hash(disk[file.tmp.segs].content))
  }

  /** The reply once the upload is named (or its naming failed): copy errors, then unlink errors, surface. */
  function StoreResponse(name: Result<StoredName>, env: Env, host: string): (r: Response)
    ensures r.Success? <==> name.Ok? && env.copyError.None? && env.unlinkError.None?
    ensures r.Success? ==> r.key == name.value.key && r.url == AssetUrl(host, Filename(name.value))
    ensures name.Err? ==> r == Fail(name.msg)
    ensures name.Ok? && env.copyError.Some? ==> r == Fail(env.copyError.value)
    ensures name.Ok? && env.copyError.None? && env.unlinkError.Some? ==> r == Fail(env.unlinkError.value)
  {
    match name
    case Err(msg) => Fail(msg)
    case Ok(n) =>
      if env.copyError.Some? then Fail(env.copyError.value)
      else if env.unlinkError.Some? then Fail(env.unlinkError.value)
      else Success(AssetUrl(host, Filename(n)), n.key)
  }

  /**
   * The reply of the upload handler. The screenshot outcome is not among
   * its arguments: a failed screenshot never changes the reply.
   */
  function UploadResponse(file: UploadedFile, disk: Disk, env: Env,
                          hash: seq<byte> -> string, date: string, host: string): (r: Response)
    ensures !Accepted(file.ext) ==> r == Fail(TypeErrorMsg)
    ensures r.Success? <==>
      UploadName(file, disk, env.readError, env.probe, hash, date).Ok? &&
      env.copyError.None? && env.unlinkError.None?
    ensures r.Success? ==>
      var n := UploadName(file, disk, env.readError, env.probe, hash, date).value;
      r.key == n.key && r.url == AssetUrl(host, Filename(n))
    ensures Accepted(file.ext) && !IsRegularFile(disk, file.tmp) ==> r == Fail(env.readError)
    ensures Accepted(file.ext) && IsRegularFile(disk, file.tmp) && file.ext.value == VideoExt && env.probe.ProbeFailed? ==>
      r == Fail(env.probe.msg)
    ensures UploadName(file, disk, env.readError, env.probe, hash, date).Err? ==>
      r == Fail(UploadName(file, disk, env.readError, env.probe, hash, date).msg)
    ensures UploadName(file, disk, env.readError, env.probe, hash, date).Ok? && env.copyError.Some? ==>
      r == Fail(env.copyError.value)
    ensures UploadName(file, disk, env.readError, env.probe, hash, date).Ok? && env.copyError.None? && env.unlinkError.Some? ==>
      r == Fail(env.unlinkError.value)
  {
    StoreResponse(UploadName(file, disk, env.readError, env.probe, hash, date), env, host)
  }

  // ---------------------------------------------------------------- reading names back

  /** The lowercase hexadecimal text `digest('hex')` produces. */
  predicate IsHexDigest(k: string) {
    forall i :: 0 <= i < |k| ==> k[i] in "0123456789abcdef"
  }

  /** A name whose date is one path segment and whose key is a hex digest. */
  predicate WellFormed(n: StoredName) {
    '/' !in n.date && IsHexDigest(n.key)
  }

  /** `s` cut at its first `c`, or `None` when `c` does not occur. */
  function SplitAt(s: string, c: char): (r: Option<(string, string)>)
    ensures r.Some? ==> s == r.value.0 + [c] + r.value.1 && c !in r.value.0
    ensures r.None? <==> c !in s
  {
    match CharIndex(s, c)
    case None => None
    case Some(i) =>
      assert s == s[..i] + [c] + s[i + 1..];
      Some((s[..i], s[i + 1..]))
  }

  /** Cutting `a + c + b` at its first `c` gives back `a` and `b` when `a` has no `c`. */
  lemma SplitAtJoin(a: string, c: char, b: string)
    requires c !in a
    ensures SplitAt(a + [c] + b, c) == Some((a, b))
  {
    var s := a + [c] + b;
    assert s[|a|] == c;
    var r := SplitAt(s, c);
    var a', b' := r.value.0, r.value.1;
    assert forall j :: 0 <= j < |a| ==> s[j] == a[j];
    assert forall j :: 0 <= j < |a'| ==> s[j] == a'[j];
    assert a' == s[..|a|] == a;
    assert b' == s[|a| + 1..] == b;
  }

  /** The rest of a video path after `video/`: `<date>/<orientation>_<key>.mp4`. */
  function ParseVideo(rest: string): Option<StoredName> {
    match SplitAt(rest, '/')
    case None => None
    case Some((date, leaf)) => ParseVideoLeaf(date, leaf)
  }

  /** The file name of a video, `<orientation>_<key>.mp4`, in the directory of `date`. */
  function ParseVideoLeaf(date: string, leaf: string): Option<StoredName> {
    if |leaf| < 4 || leaf[|leaf| - 4..] != ".mp4" then None
    else match SplitAt(leaf[..|leaf| - 4], '_')
      case None => None
      case Some((o, key)) =>
        if o == "vertical" then Some(VideoName(date, Vertical, key))
        else if o == "horizontal" then Some(VideoName(date, Horizontal, key))
        else None
  }

  /** The rest of an image path after `avatar/`: `<date>/<key>.<ext>`. */
  function ParseAvatar(rest: string): Option<StoredName> {
    match SplitAt(rest, '/')
    case None => None
    case Some((date, leaf)) =>
      match SplitAt(leaf, '.')
      case None => None
      case Some((key, ext)) => Some(AvatarName(date, key, ext))
  }

  /** The name a stored file's path (relative to `assets/`) was built from. */
  function ParseFilename(f: string): Option<StoredName> {
    if StartsWith(f, "video/") then ParseVideo(f[6..])
    else if StartsWith(f, "avatar/") then ParseAvatar(f[7..])
    else None
  }

  lemma VideoRoundTrip(date: string, o: Orientation, key: string)
    requires WellFormed(VideoName(date, o, key))
    ensures ParseVideo(date + "/" + VideoLeaf(o, key)) == Some(VideoName(date, o, key))
  {
    SplitAtJoin(date, '/', VideoLeaf(o, key));
    VideoLeafRoundTrip(date, o, key);
  }

  lemma VideoLeafRoundTrip(date: string, o: Orientation, key: string)
    requires IsHexDigest(key)
    ensures ParseVideoLeaf(date, VideoLeaf(o, key)) == Some(VideoName(date, o, key))
  {
    var name := OrientationName(o);
    var leaf := VideoLeaf(o, key);
    LeafStem(name + "_" + key, leaf);
    assert '_' !in key;
    SplitAtJoin(name, '_', key);
  }

  /** `<stem>.mp4` ends in `.mp4`, and cutting that off gives back the stem. */
  lemma LeafStem(stem: string, leaf: string)
    requires leaf == stem + ".mp4"
    ensures |leaf| >= 4 && leaf[|leaf| - 4..] == ".mp4" && leaf[..|leaf| - 4] == stem
  {
  }

  lemma AvatarRoundTrip(date: string, key: string, ext: string)
    requires WellFormed(AvatarName(date, key, ext))
    ensures ParseAvatar(date + "/" + (key + "." + ext)) == Some(AvatarName(date, key, ext))
  {
    SplitAtJoin(date, '/', key + "." + ext);
    assert '.' !in key;
    SplitAtJoin(key, '.', ext);
  }

  /** `p + rest` starts with `p`, and what follows `p` is `rest`. */
  lemma PrefixRest(p: string, rest: string)
    ensures StartsWith(p + rest, p) && (p + rest)[|p|..] == rest
  {
    assert (p + rest)[..|p|] == p;
  }

  lemma VideoFilenameRoundTrip(date: string, o: Orientation, key: string)
    requires WellFormed(VideoName(date, o, key))
    ensures ParseFilename(Filename(VideoName(date, o, key))) == Some(VideoName(date, o, key))
  {
    var rest := date + "/" + VideoLeaf(o, key);
    assert Filename(VideoName(date, o, key)) == "video/" + rest;
    PrefixRest("video/", rest);
    VideoRoundTrip(date, o, key);
  }

  lemma AvatarFilenameRoundTrip(date: string, key: string, ext: string)
    requires WellFormed(AvatarName(date, key, ext))
    ensures ParseFilename(Filename(AvatarName(date, key, ext))) == Some(AvatarName(date, key, ext))
  {
    var rest := date + "/" + (key + "." + ext);
    var f := "avatar/" + rest;
    assert Filename(AvatarName(date, key, ext)) == f;
    PrefixRest("avatar/", rest);
    assert !StartsWith(f, "video/") by {
      assert f[0] == 'a';
    }
    AvatarRoundTrip(date, key, ext);
  }

  /** The stored path of a well-formed name can be read back into that name. */
  lemma FilenameRoundTrip(n: StoredName)
    requires WellFormed(n)
    ensures ParseFilename(Filename(n)) == Some(n)
  {
    match n
    case VideoName(date, o, key) => VideoFilenameRoundTrip(date, o, key);
    case AvatarName(date, key, ext) => AvatarFilenameRoundTrip(date, key, ext);
  }

  /** Different well-formed names are stored at different paths. */
  lemma FilenameInjective(n1: StoredName, n2: StoredName)
    requires WellFormed(n1) && WellFormed(n2)
    ensures Filename(n1) == Filename(n2) <==> n1 == n2
  {
    if Filename(n1) == Filename(n2) {
      FilenameRoundTrip(n1);
      FilenameRoundTrip(n2);
    }
  }

  /**
   * The reply's `url` is `host/assets/` followed by the stored name, and the
   * name read back from it carries the reply's `key`.
   */
  lemma ReplyKeyInUrl(file: UploadedFile, disk: Disk, env: Env, hash: seq<byte> -> string, date: string, host: string)
    requires UploadResponse(file, disk, env, hash, date, host).Success?
    requires '/' !in date && forall b :: IsHexDigest(hash(b))
    ensures var r := UploadResponse(file, disk, env, hash, date, host);
      StartsWith(r.url, host + "/assets/") &&
      ParseFilename(r.url[|host| + 8..]).Some? && ParseFilename(r.url[|host| + 8..]).value.key == r.key
  {
    var r := UploadResponse(file, disk, env, hash, date, host);
    var n := UploadName(file, disk, env.readError, env.probe, hash, date).value;
    assert IsHexDigest(hash(disk[file.tmp.segs].content));
    FilenameRoundTrip(n);
    assert r.url == (host + "/assets/") + Filename(n);
    assert r.url[|host| + 8..] == Filename(n);
  }

  /** Identical bytes uploaded on the same day with the same type (and orientation) get the same name. */
  lemma SameContentSameName(f1: UploadedFile, d1: Disk, f2: UploadedFile, d2: Disk, e1: string, e2: string,
                            p1: Probe, p2: Probe, hash: seq<byte> -> string, date: string)
    requires f1.ext == f2.ext
    requires IsRegularFile(d1, f1.tmp) && IsRegularFile(d2, f2.tmp)
    requires d1[f1.tmp.segs].content == d2[f2.tmp.segs].content
    requires UploadName(f1, d1, e1, p1, hash, date).Ok? && UploadName(f2, d2, e2, p2, hash, date).Ok?
    requires p1.Probed? && p2.Probed? && |p1.streams| > 0 && |p2.streams| > 0 ==>
      OrientationOf(p1.streams[0]) == OrientationOf(p2.streams[0])
    ensures UploadName(f1, d1, e1, p1, hash, date) == UploadName(f2, d2, e2, p2, hash, date)
  {
  }

  /** Uploads with different digests are never stored at the same path. */
  lemma DistinctKeysDistinctPaths(n1: StoredName, n2: StoredName)
    requires WellFormed(n1) && WellFormed(n2) && n1.key != n2.key
    ensures Filename(n1) != Filename(n2)
  {
    FilenameInjective(n1, n2);
  }

  // ---------------------------------------------------------------- effects

  /** The disk after one effect. A failed screenshot, copy or unlink changes nothing. */
  function Step(disk: Disk, e: Effect): Disk {
    match e
    case Read(_) => disk
    case RunProbe(_) => disk
    case MkDir(p) => MkDirs(disk, p.segs)
    case Screenshot(_, dst, shot, _) => if shot.ShotTaken? then disk[dst.segs := File(shot.png)] else disk
    case Copy(src, dst, ok, _) => if ok && src.segs in disk then disk[dst.segs := disk[src.segs]] else disk
    case Unlink(p, ok) => if ok then disk - {p.segs} else disk
  }

  predicate Writes(e: Effect) {
    e.Screenshot? || e.Copy?
  }

  /** Each file written goes into a directory that exists at that moment. */
  predicate DirReadyBeforeWrite(log: seq<Effect>) {
    forall i :: 0 <= i < |log| && Writes(log[i]) ==> log[i].intoDir
  }

  /** The disk after the effects `s[k..]`, applied in order from `disk`. */
  function ReplayFrom(disk: Disk, s: seq<Effect>, k: nat): Disk
    decreases |s| - k
  {
    if k >= |s| then disk else ReplayFrom(Step(disk, s[k]), s, k + 1)
  }

  /** A write's `intoDir` flag says whether its directory is on `disk` when it is made. */
  predicate Recorded(disk: Disk, e: Effect) {
    Writes(e) ==> e.intoDir == (Dirname(e.dst).segs in disk)
  }

  /** Every write of `s[k..]` records truly whether its directory is on the disk replayed up to it. */
  predicate HonestFrom(disk: Disk, s: seq<Effect>, k: nat)
    decreases |s| - k
  {
    k >= |s| || (Recorded(disk, s[k]) && HonestFrom(Step(disk, s[k]), s, k + 1))
  }

  /** Every file written by `s[k..]` goes into a directory that is on the disk replayed up to it. */
  predicate FindsDirsFrom(disk: Disk, s: seq<Effect>, k: nat)
    decreases |s| - k
  {
    k >= |s| ||
    ((Writes(s[k]) ==> Dirname(s[k].dst).segs in disk) && FindsDirsFrom(Step(disk, s[k]), s, k + 1))
  }

  /** The disk after the whole of `s`, applied in order from `disk`. */
  function Replay(disk: Disk, s: seq<Effect>): Disk {
    ReplayFrom(disk, s, 0)
  }

  /** Every write of `s` records truly whether its directory is on the disk at that moment. */
  predicate Honest(disk: Disk, s: seq<Effect>) {
    HonestFrom(disk, s, 0)
  }

  /** Every file written by `s` goes into a directory that is on the disk at that moment. */
  predicate WritesFindDirs(disk: Disk, s: seq<Effect>) {
    FindsDirsFrom(disk, s, 0)
  }

  /**
   * `log'` continues `log`; its new effects, replayed from `disk`, give
   * `disk'`, and each of their writes records the disk truly.
   */
  predicate Traced(disk: Disk, log: seq<Effect>, log': seq<Effect>, disk': Disk) {
    |log| <= |log'| && log'[..|log|] == log &&
    disk' == ReplayFrom(disk, log', |log|) && HonestFrom(disk, log', |log|)
  }

  /**
   * Replaying `l2` from `k` is replaying `l1`, which `l2` continues, from `k`
   * and then the rest of `l2`; its writes record the disk truly iff those of
   * both stretches do.
   */
  lemma {:induction false} ReplaySplit(disk: Disk, l1: seq<Effect>, l2: seq<Effect>, k: nat)
    requires k <= |l1| <= |l2| && l2[..|l1|] == l1
    ensures ReplayFrom(disk, l2, k) == ReplayFrom(ReplayFrom(disk, l1, k), l2, |l1|)
    ensures HonestFrom(disk, l2, k) <==> HonestFrom(disk, l1, k) && HonestFrom(ReplayFrom(disk, l1, k), l2, |l1|)
    decreases |l1| - k
  {
    if k < |l1| {
      assert l2[k] == l1[k] by { assert l2[..|l1|][k] == l2[k]; }
      ReplaySplit(Step(disk, l1[k]), l1, l2, k + 1);
    }
  }

  /** One effect whose flag is true to `disk` takes it to `Step(disk, e)`. */
  lemma TracedStep(disk: Disk, log: seq<Effect>, e: Effect)
    requires Recorded(disk, e)
    ensures Traced(disk, log, log + [e], Step(disk, e))
  {
    assert (log + [e])[..|log|] == log;
    assert (log + [e])[|log|] == e;
  }

  /** No effects leave the disk as it is. */
  lemma TracedNone(disk: Disk, log: seq<Effect>)
    ensures Traced(disk, log, log, disk)
  {
    assert log[..|log|] == log;
  }

  /** Two traced stretches of a log in a row form one. */
  lemma TracedTrans(d0: Disk, l0: seq<Effect>, l1: seq<Effect>, d1: Disk, l2: seq<Effect>, d2: Disk)
    requires Traced(d0, l0, l1, d1) && Traced(d1, l1, l2, d2)
    ensures Traced(d0, l0, l2, d2)
  {
    assert l2[..|l0|] == l2[..|l1|][..|l0|];
    ReplaySplit(d0, l1, l2, |l0|);
  }

  /** A traced log that starts from nothing replays, as a whole, to the final disk. */
  lemma TracedFromStart(disk: Disk, log: seq<Effect>, disk': Disk)
    requires Traced(disk, [], log, disk')
    ensures disk' == Replay(disk, log) && Honest(disk, log)
  {
  }

  /**
   * When every write of `s[k..]` records the disk truly, the flags say that
   * each of those writes finds its directory exactly when it does so on the
   * replayed disk.
   */
  lemma {:induction false} ReadyOnDiskFrom(disk: Disk, s: seq<Effect>, k: nat)
    requires HonestFrom(disk, s, k)
    ensures (forall i :: k <= i < |s| && Writes(s[i]) ==> s[i].intoDir) <==> FindsDirsFrom(disk, s, k)
    decreases |s| - k
  {
    if k < |s| {
      ReadyOnDiskFrom(Step(disk, s[k]), s, k + 1);
    }
  }

  /** The flags of an honest log say exactly whether its writes find their directories on the disk. */
  lemma ReadyOnDisk(disk: Disk, s: seq<Effect>)
    requires Honest(disk, s)
    ensures DirReadyBeforeWrite(s) <==> WritesFindDirs(disk, s)
  {
    ReadyOnDiskFrom(disk, s, 0);
  }

  /** An unlink is the last effect and follows a successful copy of the same file. */
  predicate UnlinkOnlyAfterCopy(log: seq<Effect>) {
    forall i :: 0 <= i < |log| && log[i].Unlink? ==>
      i == |log| - 1 &&
      exists j :: 0 <= j < i && log[j].Copy? && log[j].ok && log[j].src == log[i].path
  }

  /** No effect of `log` removes a file. */
  predicate NoUnlink(log: seq<Effect>) {
    forall i :: 0 <= i < |log| ==> !log[i].Unlink?
  }

  /** Effects that neither copy nor remove a file. */
  predicate Quiet(mid: seq<Effect>) {
    forall i :: 0 <= i < |mid| ==> !mid[i].Copy? && !mid[i].Unlink?
  }

  /** `log'` continues `log` with quiet effects and ends in one copy from `src` to `dst`. */
  predicate EndsInCopy(log: seq<Effect>, log': seq<Effect>, src: FsPath, dst: FsPath, ok: bool) {
    |log'| > |log| && log'[..|log|] == log &&
    log'[|log'| - 1].Copy? && log'[|log'| - 1].src == src && log'[|log'| - 1].dst == dst && log'[|log'| - 1].ok == ok &&
    Quiet(log'[|log|..|log'| - 1])
  }

  /**
   * `log'` continues `log` with quiet effects, a successful copy from `src`
   * to `dst` and, last, the unlink of `src` with outcome `unlinkOk`.
   */
  predicate CopiedThenUnlinked(log: seq<Effect>, log': seq<Effect>, src: FsPath, dst: FsPath, unlinkOk: bool) {
    |log'| > |log| + 1 && log'[..|log|] == log &&
    log'[|log'| - 2].Copy? && log'[|log'| - 2].src == src && log'[|log'| - 2].dst == dst && log'[|log'| - 2].ok &&
    log'[|log'| - 1] == Unlink(src, unlinkOk) &&
    Quiet(log'[|log|..|log'| - 2])
  }

  /** A copy then an unlink is exactly a log ending in that copy, followed by the unlink. */
  lemma CopiedThenUnlinkedSplit(log: seq<Effect>, log': seq<Effect>, src: FsPath, dst: FsPath, unlinkOk: bool)
    requires |log'| > 0
    ensures CopiedThenUnlinked(log, log', src, dst, unlinkOk) <==>
      EndsInCopy(log, log'[..|log'| - 1], src, dst, true) && log'[|log'| - 1] == Unlink(src, unlinkOk)
  {
    var c := log'[..|log'| - 1];
    if |log'| > |log| + 1 {
      assert c[..|log|] == log'[..|log|];
      assert c[|log|..|c| - 1] == log'[|log|..|log'| - 2];
    }
  }

  /** `k` is one of the directories `mkdir -p` creates on the way to some directory of `dirs`. */
  predicate OnTheWay(k: seq<string>, dirs: set<seq<string>>) {
    exists d :: d in dirs && k <= d
  }

  /**
   * Outside `touched`, `disk'` keeps every entry of `disk` unchanged and adds
   * nothing but directories on the way to `dirs`.
   */
  predicate Confined(disk: Disk, disk': Disk, touched: set<seq<string>>, dirs: set<seq<string>>) {
    (forall k :: k in disk && k !in touched ==> k in disk' && disk'[k] == disk[k]) &&
    (forall k :: k in disk' && k !in disk && k !in touched ==> disk'[k] == Dir && OnTheWay(k, dirs))
  }

  /** Two confined steps in a row are confined to what either touches, and to the directories of either. */
  lemma ConfinedTrans(d1: Disk, d2: Disk, d3: Disk, t1: set<seq<string>>, t2: set<seq<string>>,
                      r1: set<seq<string>>, r2: set<seq<string>>)
    requires Confined(d1, d2, t1, r1) && Confined(d2, d3, t2, r2)
    ensures Confined(d1, d3, t1 + t2, r1 + r2)
  {
    forall k | k in d3 && k !in d1 && k !in t1 + t2 ensures d3[k] == Dir && OnTheWay(k, r1 + r2) {
      if k in d2 {
        assert d2[k] == Dir && OnTheWay(k, r1);
      } else {
        assert OnTheWay(k, r2);
      }
    }
  }

  /** No effect of `s` is an ffprobe run or a screenshot. */
  predicate NoVideoEffects(s: seq<Effect>) {
    forall i :: 0 <= i < |s| ==> !s[i].RunProbe? && !s[i].Screenshot?
  }

  /** Every `mkdir` of `s` creates one of `dirs`. */
  predicate MkDirsWithin(s: seq<Effect>, dirs: set<seq<string>>) {
    forall i :: 0 <= i < |s| && s[i].MkDir? ==> s[i].path.segs in dirs
  }

  /** The mkdirs of a log that continues `mid`, which continues `log`, are those of both stretches. */
  lemma MkDirsWithinSplit(log: seq<Effect>, mid: seq<Effect>, log': seq<Effect>, dirs: set<seq<string>>)
    requires |log| <= |mid| <= |log'| && log'[..|mid|] == mid
    requires MkDirsWithin(mid[|log|..], dirs) && MkDirsWithin(log'[|mid|..], dirs)
    ensures MkDirsWithin(log'[|log|..], dirs)
  {
    forall i | 0 <= i < |log'[|log|..]| && log'[|log|..][i].MkDir? ensures log'[|log|..][i].path.segs in dirs {
      if |log| + i < |mid| {
        assert log'[|log|..][i] == mid[|log|..][i] by { assert log'[..|mid|][|log| + i] == mid[|log| + i]; }
      } else {
        assert log'[|log|..][i] == log'[|mid|..][|log| + i - |mid|];
      }
    }
  }

  /** A log that continues `log` with quiet effects and one copy ends in that copy. */
  lemma QuietThenCopy(log: seq<Effect>, mid: seq<Effect>, c: Effect)
    requires Quiet(mid) && c.Copy?
    ensures EndsInCopy(log, log + mid + [c], c.src, c.dst, c.ok)
  {
    var l := log + mid + [c];
    assert l[..|log|] == log;
    assert l[|log|..|l| - 1] == mid;
  }

  /** Before the handler removes anything, no effect is an unlink. */
  lemma CopyKeepsNoUnlink(prefix: seq<Effect>, log: seq<Effect>, src: FsPath, dst: FsPath, ok: bool)
    requires NoUnlink(prefix)
    requires log == prefix || EndsInCopy(prefix, log, src, dst, ok)
    ensures NoUnlink(log)
    ensures UnlinkOnlyAfterCopy(log)
  {
    if log != prefix {
      forall i | 0 <= i < |log| ensures !log[i].Unlink? {
        if i < |prefix| {
          assert log[i] == log[..|prefix|][i];
        } else if i < |log| - 1 {
          assert log[i] == log[|prefix|..|log| - 1][i - |prefix|];
        }
      }
    }
  }

  /** Unlinking the source after a successful copy that ends `log`: the unlink is last and preceded by the copy. */
  lemma CopyThenUnlink(prefix: seq<Effect>, log: seq<Effect>, src: FsPath, dst: FsPath, b: bool)
    requires NoUnlink(prefix)
    requires EndsInCopy(prefix, log, src, dst, true)
    ensures UnlinkOnlyAfterCopy(log + [Unlink(src, b)])
    ensures Unlink(src, true) in log + [Unlink(src, b)] <==> b
    ensures exists d :: Copy(src, dst, true, d) in log + [Unlink(src, b)]
  {
    CopyKeepsNoUnlink(prefix, log, src, dst, true);
    var log' := log + [Unlink(src, b)];
    assert log'[|log|] == Unlink(src, b);
    assert log'[|log| - 1] == log[|log| - 1];
    assert log'[|log| - 1] == Copy(src, dst, true, log[|log| - 1].intoDir);
  }

  /** The directory-readiness of a log extended by one effect. */
  lemma ReadyExtend(log: seq<Effect>, e: Effect)
    ensures DirReadyBeforeWrite(log + [e]) <==> DirReadyBeforeWrite(log) && (Writes(e) ==> e.intoDir)
  {
    assert forall i :: 0 <= i < |log| ==> (log + [e])[i] == log[i];
    assert (log + [e])[|log|] == e;
  }

  /** The leaf of a video name is one clean path segment when the digest has no `/`. */
  lemma VideoLeafClean(o: Orientation, key: string)
    requires '/' !in key
    ensures Clean(VideoLeaf(o, key))
  {
    assert VideoLeaf(o, key) == OrientationName(o) + "_" + key + ".mp4";
  }

  /** `path.join(cwd, 'assets', 'video/<date>/<leaf>')` as one joined argument. */
  lemma StoredVideoPath(cwd: seq<string>, date: string, o: Orientation, key: string)
    ensures StoredAt(cwd, Filename(VideoName(date, o, key))) ==
            PathJoin(cwd, [("assets/video/" + date) + "/" + VideoLeaf(o, key)])
  {
    var f := Filename(VideoName(date, o, key));
    var rel := ("assets/video/" + date) + "/" + VideoLeaf(o, key);
    JoinTwo("assets", f);
    JoinOne(rel);
    AssetsSlashVideoName(date, VideoLeaf(o, key), f, rel);
    SameJoinArgs(cwd, ["assets", f], [rel]);
  }

  /** A stored video's `video/<date>/<leaf>` name, joined under `assets`, reads `assets/video/<date>/<leaf>`. */
  lemma AssetsSlashVideoName(date: string, leaf: string, f: string, rel: string)
    requires f == "video/" + date + "/" + leaf && rel == ("assets/video/" + date) + "/" + leaf
    ensures f != "" && "assets" + "/" + f == rel
  {
  }

  /** `path.join(cwd, 'assets/video', date)` names the directory `assets/video/<date>`. */
  lemma VideoDirPath(cwd: seq<string>, date: string)
    ensures PathJoin(cwd, ["assets/video", date]).segs == Normalize(cwd, Split("assets/video/" + date))
  {
    JoinTwoSegs(cwd, "assets/video", date);
    if date == "" {
      VideoDirUndated(cwd);
      assert "assets/video/" + date == "assets/video/";
    } else {
      VideoDirSlashDate("assets/video", date, "assets/video/" + date);
    }
  }

  /** The `assets/video` directory joined with a date reads `assets/video/<date>`. */
  lemma VideoDirSlashDate(a: string, b: string, ab: string)
    requires a == "assets/video" && ab == "assets/video/" + b
    ensures a + "/" + b == ab
  {
  }

  /** The directory of a stored video is the `assets/video/<date>` directory the handler ensures. */
  lemma VideoDirOfTarget(cwd: seq<string>, date: string, o: Orientation, key: string)
    requires '/' !in key
    ensures Dirname(StoredAt(cwd, Filename(VideoName(date, o, key)))).segs == VideoDir(cwd, date).segs
  {
    VideoLeafClean(o, key);
    StoredVideoPath(cwd, date, o, key);
    DirnameOfJoin(cwd, "assets/video/" + date, VideoLeaf(o, key));
    VideoDirPath(cwd, date);
  }

  /** With an empty date `path.join` drops the argument; the trailing `/` of the name changes nothing. */
  lemma VideoDirUndated(cwd: seq<string>)
    ensures Normalize(cwd, Split("assets/video/")) == Normalize(cwd, Split("assets/video"))
  {
    assert "assets/video/" == "assets/video" + "/" + "";
    SplitConcat("assets/video", "");
    assert Split("") == [""];
    NormalizeConcat(cwd, Split("assets/video"), [""]);
  }

  /** The screenshot of a digest without `/` lands directly in the screenshot directory. */
  lemma ShotDirOf(cwd: seq<string>, key: string)
    requires '/' !in key
    ensures Dirname(ShotAt(cwd, key)).segs == ScreenshotDir(cwd).segs
  {
    assert '/' !in key + ".png";
    JoinCleanLeaf(ScreenshotDir(cwd).segs, key + ".png");
  }

  // ---------------------------------------------------------------- handler

  /**
   * `if (!fs.existsSync(dir)) fs.mkdirSync(dir, { recursive: true })`:
   * afterwards `dir` exists, and nothing that was on the disk has changed.
   */
  method EnsureDir(disk: Disk, log: seq<Effect>, dir: FsPath) returns (disk': Disk, log': seq<Effect>)
    ensures Exists(disk, dir) ==> disk' == disk && log' == log
    ensures !Exists(disk, dir) ==> disk' == MkDirs(disk, dir.segs) && log' == log + [MkDir(dir)]
    ensures dir.segs in disk'
    ensures Confined(disk, disk', {}, {dir.segs})
    ensures Traced(disk, log, log', disk')
  {
    disk', log' := disk, log;
    TracedNone(disk, log);
    if !Exists(disk, dir) {
      disk' := MkDirs(disk, dir.segs);
      log' := log + [MkDir(dir)];
      TracedStep(disk, log, MkDir(dir));
      forall k | k in disk ensures k in disk' && disk'[k] == disk[k] {
        MkDirsKeeps(disk, dir.segs, k);
      }
      forall k | k in disk' && k !in disk ensures disk'[k] == Dir && OnTheWay(k, {dir.segs}) {
        MkDirsCreates(disk, dir.segs, k);
      }
    }
  }

  /** `fs.promises.copyFile(src, dst)`, which rejects with `copyError` when there is one. */
  method CopyFile(disk: Disk, log: seq<Effect>, src: FsPath, dst: FsPath, copyError: Option<string>)
    returns (disk': Disk, log': seq<Effect>)
    ensures log' == log + [Copy(src, dst, copyError.None?, Dirname(dst).segs in disk)]
    ensures disk' == if copyError.None? && src.segs in disk then disk[dst.segs := disk[src.segs]] else disk
    ensures Confined(disk, disk', if copyError.None? then {dst.segs} else {}, {})
    ensures Traced(disk, log, log', disk')
  {
    var e := Copy(src, dst, copyError.None?, Dirname(dst).segs in disk);
    disk' := Step(disk, e);
    log' := log + [e];
    TracedStep(disk, log, e);
  }

  /**
   * `uploadS3`: ensure the directory of `assets/<filename>` exists, copy the
   * file there and return its public URL. `log` holds the effects so far.
   */
  method CopyIntoAssets(disk: Disk, log: seq<Effect>, filepath: FsPath, filename: string,
                        cwd: seq<string>, host: string, copyError: Option<string>)
    returns (url: Result<string>, disk': Disk, log': seq<Effect>)
    requires filename != ""
    ensures url == if copyError.None? then Ok(AssetUrl(host, filename)) else Err(copyError.value)
    ensures EndsInCopy(log, log', filepath, StoredAt(cwd, filename), copyError.None?)
    ensures log'[|log'| - 1].intoDir
    ensures DirReadyBeforeWrite(log) ==> DirReadyBeforeWrite(log')
    ensures copyError.None? && filepath.segs in disk ==>
      StoredAt(cwd, filename).segs in disk' && disk'[StoredAt(cwd, filename).segs] == disk[filepath.segs]
    ensures Confined(disk, disk', if copyError.None? then {StoredAt(cwd, filename).segs} else {},
                     {Dirname(StoredAt(cwd, filename)).segs})
    ensures NoVideoEffects(log'[|log|..])
    ensures MkDirsWithin(log'[|log|..], {Dirname(StoredAt(cwd, filename)).segs})
    ensures Traced(disk, log, log', disk')
  {
    var assetsDir := PathJoin(cwd, ["assets"]);
    var targetDir := Dirname(PathJoin(assetsDir.segs, [filename]));
    var targetPath := PathJoin(assetsDir.segs, [filename]);
    JoinNested(cwd, "assets", filename);
    disk', log' := EnsureAndCopy(disk, log, filepath, targetDir, targetPath, copyError);
    if copyError.Some? {
      url := Err(copyError.value);
      return;
    }
    url := Ok(AssetUrl(host, filename));
  }

  /** Ensure the directory `dir` of `dst` exists, then copy `src` to `dst`. */
  method EnsureAndCopy(disk: Disk, log: seq<Effect>, src: FsPath, dir: FsPath, dst: FsPath, copyError: Option<string>)
    returns (disk': Disk, log': seq<Effect>)
    requires Dirname(dst).segs == dir.segs
    ensures EndsInCopy(log, log', src, dst, copyError.None?)
    ensures log'[|log'| - 1].intoDir
    ensures DirReadyBeforeWrite(log) ==> DirReadyBeforeWrite(log')
    ensures copyError.None? && src.segs in disk ==> dst.segs in disk' && disk'[dst.segs] == disk[src.segs]
    ensures Confined(disk, disk', if copyError.None? then {dst.segs} else {}, {dir.segs})
    ensures NoVideoEffects(log'[|log|..])
    ensures MkDirsWithin(log'[|log|..], {dir.segs})
    ensures Traced(disk, log, log', disk')
  {
    var d1, l1 := EnsureDir(disk, log, dir);
    disk', log' := CopyFile(d1, l1, src, dst, copyError);
    TracedTrans(disk, log, l1, d1, log', disk');
    ConfinedTrans(disk, d1, disk', {}, if copyError.None? then {dst.segs} else {}, {dir.segs}, {});
    assert {dir.segs} + {} == {dir.segs};
    CopyLog(log, l1, dir, log'[|log'| - 1]);
  }

  /** The log of `uploadS3`: at most one `mkdir`, then the copy `c`. */
  lemma CopyLog(log: seq<Effect>, l1: seq<Effect>, dir: FsPath, c: Effect)
    requires l1 == log || l1 == log + [MkDir(dir)]
    requires c.Copy?
    ensures EndsInCopy(log, l1 + [c], c.src, c.dst, c.ok)
    ensures NoVideoEffects((l1 + [c])[|log|..])
    ensures MkDirsWithin((l1 + [c])[|log|..], {dir.segs})
    ensures DirReadyBeforeWrite(log) && c.intoDir ==> DirReadyBeforeWrite(l1 + [c])
  {
    var mid := l1[|log|..];
    assert l1 == log + mid && Quiet(mid);
    assert (l1 + [c])[|log|..] == mid + [c];
    QuietThenCopy(log, mid, c);
    ReadyExtend(log, MkDir(dir));
    ReadyExtend(l1, c);
  }

  /** The screenshot `e` was taken from `src` into `dst` with outcome `shot`. */
  predicate TookShot(e: Effect, src: FsPath, dst: FsPath, shot: Shot) {
    e.Screenshot? && e.src == src && e.dst == dst && e.shot == shot
  }

  /** The effect before the last one of `log` is that screenshot. */
  predicate ShotBeforeLast(log: seq<Effect>, src: FsPath, dst: FsPath, shot: Shot) {
    |log| >= 2 && TookShot(log[|log| - 2], src, dst, shot)
  }

  /** ffmpeg's `screenshots` run writing the first frame to `dst`; a failed run writes nothing. */
  method TakeScreenshot(disk: Disk, log: seq<Effect>, src: FsPath, dst: FsPath, shot: Shot)
    returns (disk': Disk, log': seq<Effect>)
    ensures log' == log + [Screenshot(src, dst, shot, Dirname(dst).segs in disk)]
    ensures disk' == if shot.ShotTaken? then disk[dst.segs := File(shot.png)] else disk
    ensures Confined(disk, disk', if shot.ShotTaken? then {dst.segs} else {}, {})
    ensures Traced(disk, log, log', disk')
  {
    var e := Screenshot(src, dst, shot, Dirname(dst).segs in disk);
    disk' := Step(disk, e);
    log' := log + [e];
    TracedStep(disk, log, e);
  }

  /** Directory creations, one screenshot and one copy after `log`: the copy ends it, the screenshot precedes it. */
  lemma ShotThenCopyLog(log: seq<Effect>, mid: seq<Effect>, s: Effect, c: Effect)
    requires forall i :: 0 <= i < |mid| ==> mid[i].MkDir?
    requires s.Screenshot? && c.Copy?
    ensures EndsInCopy(log, log + mid + [s] + [c], c.src, c.dst, c.ok)
    ensures (log + mid + [s] + [c])[|log + mid + [s] + [c]| - 2] == s
    ensures DirReadyBeforeWrite(log) && s.intoDir && c.intoDir ==> DirReadyBeforeWrite(log + mid + [s] + [c])
  {
    assert Quiet(mid + [s]) by {
      forall i | 0 <= i < |mid + [s]| ensures !(mid + [s])[i].Copy? && !(mid + [s])[i].Unlink? {
        if i < |mid| { assert (mid + [s])[i] == mid[i]; }
      }
    }
    QuietThenCopy(log, mid + [s], c);
    assert log + mid + [s] + [c] == log + (mid + [s]) + [c];
    if DirReadyBeforeWrite(log) && s.intoDir && c.intoDir {
      var l := log + mid + [s] + [c];
      forall i | 0 <= i < |l| ensures Writes(l[i]) ==> l[i].intoDir {
        if i < |log| {
          assert l[i] == log[i];
        } else if i < |log| + |mid| {
          assert l[i] == mid[i - |log|];
        }
      }
    }
  }

  /**
   * The log of the video branch: at most one `mkdir` per directory, then the
   * screenshot `s`, then the copy `c`.
   */
  lemma ShootLog(log: seq<Effect>, l1: seq<Effect>, l2: seq<Effect>, videoDir: FsPath, screenshotDir: FsPath,
                 s: Effect, c: Effect)
    requires l1 == log || l1 == log + [MkDir(videoDir)]
    requires l2 == l1 || l2 == l1 + [MkDir(screenshotDir)]
    requires s.Screenshot? && c.Copy?
    ensures EndsInCopy(log, l2 + [s] + [c], c.src, c.dst, c.ok)
    ensures ShotBeforeLast(l2 + [s] + [c], s.src, s.dst, s.shot)
    ensures DirReadyBeforeWrite(log) && s.intoDir && c.intoDir ==> DirReadyBeforeWrite(l2 + [s] + [c])
    ensures MkDirsWithin((l2 + [s] + [c])[|log|..], {videoDir.segs, screenshotDir.segs})
  {
    var mid := l2[|log|..];
    assert l2 == log + mid;
    assert forall i :: 0 <= i < |mid| ==> mid[i] in {MkDir(videoDir), MkDir(screenshotDir)};
    ShotThenCopyLog(log, mid, s, c);
    assert (l2 + [s] + [c])[|log|..] == mid + [s, c];
  }

  /** Two directory creations, then a screenshot and a copy, touch only what those two write. */
  lemma ShootFrame(d0: Disk, d1: Disk, d2: Disk, d3: Disk, d4: Disk, shotWrite: set<seq<string>>,
                   copyWrite: set<seq<string>>, src: seq<string>, shotAt: seq<string>, dst: seq<string>, ok: bool,
                   dir1: seq<string>, dir2: seq<string>)
    requires Confined(d0, d1, {}, {dir1}) && Confined(d1, d2, {}, {dir2})
    requires Confined(d2, d3, shotWrite, {}) && Confined(d3, d4, copyWrite, {})
    requires shotWrite <= {shotAt}
    requires d4 == if ok && src in d3 then d3[dst := d3[src]] else d3
    ensures Confined(d0, d4, shotWrite + copyWrite, {dir1, dir2})
    ensures ok && src in d0 && src != shotAt ==> dst in d4 && d4[dst] == d0[src]
  {
    var none: set<seq<string>> := {};
    var dirs := {dir1, dir2};
    ConfinedTrans(d0, d1, d2, none, none, {dir1}, {dir2});
    assert none + none == none && {dir1} + {dir2} == dirs;
    ConfinedTrans(d0, d2, d3, none, shotWrite, dirs, none);
    assert none + shotWrite == shotWrite && dirs + none == dirs;
    ConfinedTrans(d0, d3, d4, shotWrite, copyWrite, dirs, none);
  }

  /** Four traced stretches of a log in a row form one. */
  lemma TracedChain(d0: Disk, d1: Disk, d2: Disk, d3: Disk, d4: Disk,
                    l0: seq<Effect>, l1: seq<Effect>, l2: seq<Effect>, l3: seq<Effect>, l4: seq<Effect>)
    requires Traced(d0, l0, l1, d1) && Traced(d1, l1, l2, d2)
    requires Traced(d2, l2, l3, d3) && Traced(d3, l3, l4, d4)
    ensures Traced(d0, l0, l4, d4)
  {
    TracedTrans(d0, l0, l1, d1, l2, d2);
    TracedTrans(d0, l0, l2, d2, l3, d3);
    TracedTrans(d0, l0, l3, d3, l4, d4);
  }

  /**
   * What storing `n` may write: the screenshot, when one is taken for a
   * video, and the target, when the copy succeeds.
   */
  function StoreWrites(n: StoredName, cwd: seq<string>, shot: Shot, copyOk: bool): set<seq<string>> {
    (if n.VideoName? && shot.ShotTaken? then {ShotAt(cwd, n.key).segs} else {}) +
    (if copyOk then {StoredAt(cwd, Filename(n)).segs} else {})
  }

  /**
   * The directories storing `n` ensures: the day's video folder and the
   * screenshot folder for a video, the target's folder for anything else.
   */
  function StoreDirs(n: StoredName, cwd: seq<string>): set<seq<string>> {
    if n.VideoName? then {VideoDir(cwd, n.date).segs, ScreenshotDir(cwd).segs}
    else {Dirname(StoredAt(cwd, Filename(n))).segs}
  }

  /** What the whole handler may write or remove: the stored files, and the temp file once it is unlinked. */
  function UploadWrites(n: StoredName, tmp: FsPath, cwd: seq<string>, shot: Shot, env: Env): set<seq<string>> {
    if env.copyError.None? then StoreWrites(n, cwd, shot, true) + (if env.unlinkError.None? then {tmp.segs} else {})
    else StoreWrites(n, cwd, shot, false)
  }

  /**
   * The effects of the video branch once the paths are known: ensure the
   * video and screenshot directories, take the screenshot (whose failure is
   * swallowed) and copy the upload to `target`.
   */
  method ShootAndCopy(disk: Disk, log: seq<Effect>, tmp: FsPath, videoDir: FsPath, screenshotDir: FsPath,
                      shotPath: FsPath, target: FsPath, shot: Shot, copyError: Option<string>)
    returns (disk': Disk, log': seq<Effect>)
    ensures EndsInCopy(log, log', tmp, target, copyError.None?)
    ensures ShotBeforeLast(log', tmp, shotPath, shot)
    ensures copyError.None? && tmp.segs in disk && tmp.segs != shotPath.segs ==>
      target.segs in disk' && disk'[target.segs] == disk[tmp.segs]
    ensures (DirReadyBeforeWrite(log) && Dirname(shotPath).segs == screenshotDir.segs &&
             Dirname(target).segs == videoDir.segs) ==> DirReadyBeforeWrite(log')
    ensures Confined(disk, disk', (if shot.ShotTaken? then {shotPath.segs} else {}) +
                                  (if copyError.None? then {target.segs} else {}),
                     {videoDir.segs, screenshotDir.segs})
    ensures MkDirsWithin(log'[|log|..], {videoDir.segs, screenshotDir.segs})
    ensures Traced(disk, log, log', disk')
  {
    var d1, l1 := EnsureDir(disk, log, videoDir);
    var d2, l2 := EnsureDir(d1, l1, screenshotDir);
    var d3, l3 := TakeScreenshot(d2, l2, tmp, shotPath, shot);
    disk', log' := CopyFile(d3, l3, tmp, target, copyError);
    ShootFrame(disk, d1, d2, d3, disk', if shot.ShotTaken? then {shotPath.segs} else {},
               if copyError.None? then {target.segs} else {}, tmp.segs, shotPath.segs, target.segs,
               copyError.None?, videoDir.segs, screenshotDir.segs);
    TracedChain(disk, d1, d2, d3, disk', log, l1, l2, l3, log');
    ShootLog(log, l1, l2, videoDir, screenshotDir, Screenshot(tmp, shotPath, shot, Dirname(shotPath).segs in d2),
             Copy(tmp, target, copyError.None?, Dirname(target).segs in d3));
  }

  /**
   * The video branch of the handler: probe, name the file after its
   * orientation, then ensure the directories, screenshot and copy.
   */
  method StoreVideo(disk: Disk, log: seq<Effect>, tmp: FsPath, probe: Probe, shot: Shot, key: string,
                    date: string, cwd: seq<string>, host: string, copyError: Option<string>)
    returns (url: Result<string>, disk': Disk, log': seq<Effect>)
    ensures url == match NameFor(VideoExt, probe, date, key)
      case Err(msg) => Err(msg)
      case Ok(n) => if copyError.None? then Ok(AssetUrl(host, Filename(n))) else Err(copyError.value)
    ensures NameFor(VideoExt, probe, date, key).Err? ==> disk' == disk && log' == log + [RunProbe(tmp)]
    ensures NameFor(VideoExt, probe, date, key).Ok? ==>
      var target := StoredAt(cwd, Filename(NameFor(VideoExt, probe, date, key).value));
      EndsInCopy(log + [RunProbe(tmp)], log', tmp, target, copyError.None?) &&
      ShotBeforeLast(log', tmp, ShotAt(cwd, key), shot) &&
      (copyError.None? && tmp.segs in disk && tmp.segs != ShotAt(cwd, key).segs ==>
        target.segs in disk' && disk'[target.segs] == disk[tmp.segs])
    ensures '/' !in key && DirReadyBeforeWrite(log) ==> DirReadyBeforeWrite(log')
    ensures NameFor(VideoExt, probe, date, key).Ok? ==>
      Confined(disk, disk', StoreWrites(NameFor(VideoExt, probe, date, key).value, cwd, shot, copyError.None?),
               StoreDirs(NameFor(VideoExt, probe, date, key).value, cwd))
    ensures |log'| > |log| && log'[|log|] == RunProbe(tmp)
    ensures NameFor(VideoExt, probe, date, key).Ok? ==>
      MkDirsWithin(log'[|log|..], StoreDirs(NameFor(VideoExt, probe, date, key).value, cwd))
    ensures Traced(disk, log, log', disk')
  {
    disk', log' := disk, log + [RunProbe(tmp)];
    ReadyExtend(log, RunProbe(tmp));
    TracedStep(disk, log, RunProbe(tmp));
    ghost var probed := log';
    if probe.ProbeFailed? {
      url := Err(probe.msg);
      return;
    }
    var streams := probe.streams;
    if |streams| == 0 {
      url := Err(NoStreamMsg);
      return;
    }
    var orientation := OrientationOf(streams[0]);
    var filename := Filename(VideoName(date, orientation, key));
    if '/' !in key {
      VideoDirOfTarget(cwd, date, orientation, key);
      ShotDirOf(cwd, key);
    }
    disk', log' := ShootAndCopy(disk, log', tmp, VideoDir(cwd, date), ScreenshotDir(cwd),
                                ShotAt(cwd, key), StoredAt(cwd, filename), shot, copyError);
    TracedTrans(disk, log, probed, disk, log', disk');
    assert probed[|log|..] == [RunProbe(tmp)];
    MkDirsWithinSplit(log, probed, log', StoreDirs(VideoName(date, orientation, key), cwd));
    assert log'[|log|] == log'[..|probed|][|log|];
    if copyError.Some? {
      url := Err(copyError.value);
      return;
    }
    url := Ok(AssetUrl(host, filename));
  }

  /** A copy from `src` to `dst` with outcome `ok` is among the effects of `log`. */
  predicate Copied(log: seq<Effect>, src: FsPath, dst: FsPath, ok: bool) {
    exists i :: 0 <= i < |log| && log[i].Copy? && log[i].src == src && log[i].dst == dst && log[i].ok == ok
  }

  /** The screenshot from `src` into `shotDst` is taken right before the copy from `src` to `dst`. */
  predicate ShotThenCopy(log: seq<Effect>, src: FsPath, shotDst: FsPath, dst: FsPath, shot: Shot) {
    exists i :: 0 <= i < |log| - 1 && TookShot(log[i], src, shotDst, shot) &&
      log[i + 1].Copy? && log[i + 1].src == src && log[i + 1].dst == dst
  }

  /** A log ending in a copy after `log + [e]`, with `e` quiet, ends in that copy after `log`. */
  lemma QuietPrefix(log: seq<Effect>, e: Effect, log': seq<Effect>, src: FsPath, dst: FsPath, ok: bool)
    requires !e.Copy? && !e.Unlink?
    requires EndsInCopy(log + [e], log', src, dst, ok)
    ensures EndsInCopy(log, log', src, dst, ok)
  {
    var n := |log|;
    assert log'[..n] == (log'[..n + 1])[..n];
    var mid := log'[n..|log'| - 1];
    forall i | 0 <= i < |mid| ensures !mid[i].Copy? && !mid[i].Unlink? {
      if i == 0 {
        assert mid[0] == log'[..n + 1][n];
      } else {
        assert mid[i] == log'[n + 1..|log'| - 1][i - 1];
      }
    }
  }

  /** A log that ends in a copy holds that copy. */
  lemma EndsInCopyCopied(log: seq<Effect>, log': seq<Effect>, src: FsPath, dst: FsPath, ok: bool)
    requires EndsInCopy(log, log', src, dst, ok)
    ensures Copied(log', src, dst, ok)
  {
    assert log'[|log'| - 1].Copy?;
  }

  /** A screenshot right before a final copy is a screenshot taken right before that copy. */
  lemma ShotWitness(log: seq<Effect>, src: FsPath, shotDst: FsPath, dst: FsPath, shot: Shot)
    requires ShotBeforeLast(log, src, shotDst, shot)
    requires log[|log| - 1].Copy? && log[|log| - 1].src == src && log[|log| - 1].dst == dst
    ensures ShotThenCopy(log, src, shotDst, dst, shot)
  {
    assert TookShot(log[|log| - 2], src, shotDst, shot);
  }

  /** Appending an effect keeps a screenshot-then-copy pair. */
  lemma ShotThenCopyKept(log: seq<Effect>, e: Effect, src: FsPath, shotDst: FsPath, dst: FsPath, shot: Shot)
    requires ShotThenCopy(log, src, shotDst, dst, shot)
    ensures ShotThenCopy(log + [e], src, shotDst, dst, shot)
  {
    var i :| 0 <= i < |log| - 1 && TookShot(log[i], src, shotDst, shot) &&
      log[i + 1].Copy? && log[i + 1].src == src && log[i + 1].dst == dst;
    assert (log + [e])[i] == log[i] && (log + [e])[i + 1] == log[i + 1];
  }

  /**
   * The branch on the extension: a video is probed, named after its
   * orientation and stored with its screenshot; anything else goes through
   * `uploadS3` as `avatar/<date>/<hash>.<ext>`.
   */
  method Store(disk: Disk, log: seq<Effect>, tmp: FsPath, ext: string, probe: Probe, shot: Shot, key: string,
               date: string, cwd: seq<string>, host: string, copyError: Option<string>)
    returns (url: Result<string>, disk': Disk, log': seq<Effect>)
    ensures url == match NameFor(ext, probe, date, key)
      case Err(msg) => Err(msg)
      case Ok(n) => if copyError.None? then Ok(AssetUrl(host, Filename(n))) else Err(copyError.value)
    ensures NameFor(ext, probe, date, key).Err? ==> disk' == disk && log' == log + [RunProbe(tmp)]
    ensures NameFor(ext, probe, date, key).Ok? ==>
      EndsInCopy(log, log', tmp, StoredAt(cwd, Filename(NameFor(ext, probe, date, key).value)), copyError.None?)
    ensures NameFor(ext, probe, date, key).Ok? && ext == VideoExt ==>
      ShotBeforeLast(log', tmp, ShotAt(cwd, key), shot)
    ensures NameFor(ext, probe, date, key).Ok? && copyError.None? && tmp.segs in disk &&
            (ext == VideoExt ==> tmp.segs != ShotAt(cwd, key).segs) ==>
      var target := StoredAt(cwd, Filename(NameFor(ext, probe, date, key).value));
      target.segs in disk' && disk'[target.segs] == disk[tmp.segs]
    ensures '/' !in key && DirReadyBeforeWrite(log) ==> DirReadyBeforeWrite(log')
    ensures NameFor(ext, probe, date, key).Ok? ==>
      Confined(disk, disk', StoreWrites(NameFor(ext, probe, date, key).value, cwd, shot, copyError.None?),
               StoreDirs(NameFor(ext, probe, date, key).value, cwd))
    ensures ext != VideoExt ==> NoVideoEffects(log'[|log|..])
    ensures ext == VideoExt ==> |log'| > |log| && log'[|log|] == RunProbe(tmp)
    ensures NameFor(ext, probe, date, key).Ok? ==>
      MkDirsWithin(log'[|log|..], StoreDirs(NameFor(ext, probe, date, key).value, cwd))
    ensures Traced(disk, log, log', disk')
  {
    if ext == VideoExt {
      url, disk', log' := StoreVideo(disk, log, tmp, probe, shot, key, date, cwd, host, copyError);
      if NameFor(ext, probe, date, key).Ok? {
        QuietPrefix(log, RunProbe(tmp), log', tmp,
                    StoredAt(cwd, Filename(NameFor(ext, probe, date, key).value)), copyError.None?);
      }
    } else {
      var filename := Filename(AvatarName(date, key, ext));
      url, disk', log' := CopyIntoAssets(disk, log, tmp, filename, cwd, host, copyError);
    }
  }

  /** `fs.unlinkSync(tmp)`, which throws with `unlinkError` when there is one. */
  method RemoveTemp(disk: Disk, log: seq<Effect>, tmp: FsPath, unlinkError: Option<string>)
    returns (disk': Disk, log': seq<Effect>)
    ensures log' == log + [Unlink(tmp, unlinkError.None?)]
    ensures disk' == if unlinkError.None? then disk - {tmp.segs} else disk
    ensures Confined(disk, disk', if unlinkError.None? then {tmp.segs} else {}, {})
    ensures Traced(disk, log, log', disk')
  {
    var e := Unlink(tmp, unlinkError.None?);
    disk' := Step(disk, e);
    log' := log + [e];
    TracedStep(disk, log, e);
  }

  /** After a failed copy the handler touches only what storing touched. */
  lemma ConfinedCopyFailed(disk: Disk, disk': Disk, n: StoredName, tmp: FsPath, cwd: seq<string>, shot: Shot, env: Env)
    requires env.copyError.Some?
    requires Confined(disk, disk', StoreWrites(n, cwd, shot, false), StoreDirs(n, cwd))
    ensures Confined(disk, disk', UploadWrites(n, tmp, cwd, shot, env), StoreDirs(n, cwd))
  {
  }

  /** Storing, then unlinking the temp file, touches what either step touches. */
  lemma ConfinedUnlink(disk: Disk, stored: Disk, disk': Disk, n: StoredName, tmp: FsPath, cwd: seq<string>,
                       shot: Shot, env: Env)
    requires env.copyError.None?
    requires Confined(disk, stored, StoreWrites(n, cwd, shot, true), StoreDirs(n, cwd))
    requires Confined(stored, disk', if env.unlinkError.None? then {tmp.segs} else {}, {})
    ensures Confined(disk, disk', UploadWrites(n, tmp, cwd, shot, env), StoreDirs(n, cwd))
  {
    ConfinedTrans(disk, stored, disk', StoreWrites(n, cwd, shot, true), if env.unlinkError.None? then {tmp.segs} else {},
                  StoreDirs(n, cwd), {});
    assert StoreDirs(n, cwd) + {} == StoreDirs(n, cwd);
  }

  /** A failed probe is the only effect of storing: nothing is copied or unlinked. */
  lemma ProbeFailedLog(log: seq<Effect>, tmp: FsPath)
    requires NoUnlink(log)
    ensures var l := log + [RunProbe(tmp)];
      |l| > |log| && l[..|log|] == log &&
      UnlinkOnlyAfterCopy(l) && Unlink(tmp, true) !in l && Unlink(tmp, false) !in l &&
      (DirReadyBeforeWrite(log) ==> DirReadyBeforeWrite(l))
  {
    var l := log + [RunProbe(tmp)];
    assert forall i :: 0 <= i < |log| ==> l[i] == log[i];
    assert l[|log|] == RunProbe(tmp);
    assert l[..|log|] == log;
    ReadyExtend(log, RunProbe(tmp));
  }

  /** A store whose copy failed: nothing is unlinked, and the failed copy (after the screenshot) is logged. */
  lemma CopyFailedLog(log: seq<Effect>, log': seq<Effect>, tmp: FsPath, target: FsPath, shotPath: FsPath,
                      shot: Shot, isVideo: bool)
    requires NoUnlink(log)
    requires EndsInCopy(log, log', tmp, target, false)
    requires isVideo ==> ShotBeforeLast(log', tmp, shotPath, shot)
    ensures UnlinkOnlyAfterCopy(log') && Unlink(tmp, true) !in log' && Unlink(tmp, false) !in log'
    ensures Copied(log', tmp, target, false)
    ensures isVideo ==> ShotThenCopy(log', tmp, shotPath, target, shot)
  {
    CopyKeepsNoUnlink(log, log', tmp, target, false);
    EndsInCopyCopied(log, log', tmp, target, false);
    if isVideo {
      ShotWitness(log', tmp, shotPath, target, shot);
    }
  }

  /**
   * Unlinking the temp file after a store whose copy succeeded: the unlink
   * comes last, after the copy (and the screenshot before it), and keeps
   * what the log promised so far.
   */
  lemma UnlinkLog(log: seq<Effect>, copied: seq<Effect>, tmp: FsPath, target: FsPath, shotPath: FsPath,
                  shot: Shot, isVideo: bool, ok: bool)
    requires NoUnlink(log)
    requires EndsInCopy(log, copied, tmp, target, true)
    requires isVideo ==> ShotBeforeLast(copied, tmp, shotPath, shot)
    ensures var l := copied + [Unlink(tmp, ok)];
      |l| > |log| && l[..|log|] == log && l[..|l| - 1] == copied && l[|l| - 1] == Unlink(tmp, ok) &&
      UnlinkOnlyAfterCopy(l) && (Unlink(tmp, true) in l <==> ok) && Unlink(tmp, ok) in l &&
      Copied(l, tmp, target, true) &&
      (isVideo ==> ShotThenCopy(l, tmp, shotPath, target, shot)) &&
      (DirReadyBeforeWrite(copied) ==> DirReadyBeforeWrite(l)) &&
      (NoVideoEffects(copied[|log|..]) ==> NoVideoEffects(l[|log|..])) &&
      CopiedThenUnlinked(log, l, tmp, target, ok)
  {
    var l := copied + [Unlink(tmp, ok)];
    CopiedThenUnlinkedSplit(log, l, tmp, target, ok);
    CopyThenUnlink(log, copied, tmp, target, ok);
    assert l[|copied| - 1] == copied[|copied| - 1];
    ReadyExtend(copied, Unlink(tmp, ok));
    if isVideo {
      ShotWitness(copied, tmp, shotPath, target, shot);
      ShotThenCopyKept(copied, Unlink(tmp, ok), tmp, shotPath, target, shot);
    }
    if NoVideoEffects(copied[|log|..]) {
      NoVideoEffectsAppend(log, copied, Unlink(tmp, ok));
    }
    assert l[..|log|] == copied[..|log|];
  }

  /** Appending an effect that is neither a probe nor a screenshot keeps a tail free of them. */
  lemma NoVideoEffectsAppend(log: seq<Effect>, copied: seq<Effect>, e: Effect)
    requires |log| <= |copied| && NoVideoEffects(copied[|log|..])
    requires !e.RunProbe? && !e.Screenshot?
    ensures NoVideoEffects((copied + [e])[|log|..])
  {
    assert (copied + [e])[|log|..] == copied[|log|..] + [e];
  }

  /** Appending an effect that is not a `mkdir` keeps the first effect after `log` and the mkdirs after it. */
  lemma MkDirsWithinAppend(log: seq<Effect>, copied: seq<Effect>, e: Effect, dirs: set<seq<string>>)
    requires |log| < |copied| && MkDirsWithin(copied[|log|..], dirs)
    requires !e.MkDir?
    ensures (copied + [e])[|log|] == copied[|log|]
    ensures MkDirsWithin((copied + [e])[|log|..], dirs)
  {
    assert (copied + [e])[|log|..] == copied[|log|..] + [e];
  }

  /** A log that starts with an effect other than a `mkdir` makes only the mkdirs of its rest. */
  lemma MkDirsWithinCons(l: seq<Effect>, dirs: set<seq<string>>)
    requires |l| > 0 && !l[0].MkDir? && MkDirsWithin(l[1..], dirs)
    ensures MkDirsWithin(l, dirs)
  {
    forall i | 0 <= i < |l| && l[i].MkDir? ensures l[i].path.segs in dirs {
      assert l[i] == l[1..][i - 1];
    }
  }

  /** A store that failed is answered with its error, and no copy succeeded. */
  lemma FailedReply(name: Result<StoredName>, env: Env, host: string, url: Result<string>)
    requires url == match name
      case Err(msg) => Err(msg)
      case Ok(n) => if env.copyError.None? then Ok(AssetUrl(host, Filename(n))) else Err(env.copyError.value)
    requires url.Err?
    ensures Fail(url.msg) == StoreResponse(name, env, host)
    ensures !(name.Ok? && env.copyError.None?)
  {
  }

  /** A store that succeeded is answered with its URL, unless unlinking the temporary file failed. */
  lemma StoredReply(name: Result<StoredName>, env: Env, host: string, url: Result<string>, key: string)
    requires url == match name
      case Err(msg) => Err(msg)
      case Ok(n) => if env.copyError.None? then Ok(AssetUrl(host, Filename(n))) else Err(env.copyError.value)
    requires url.Ok?
    requires name.Ok? ==> name.value.key == key
    ensures name.Ok? && env.copyError.None?
    ensures (if env.unlinkError.Some? then Fail(env.unlinkError.value) else Success(url.value, key)) ==
      StoreResponse(name, env, host)
  {
  }

  /**
   * Unlinking the temporary file after a successful copy: the file is gone,
   * and the copy, if it is a different file, keeps what the upload held.
   */
  lemma UnlinkedContent(disk: Disk, stored: Disk, disk': Disk, tmp: FsPath, target: FsPath, shotAt: FsPath,
                        isVideo: bool, ok: bool)
    requires tmp.segs in disk && (isVideo ==> tmp.segs != shotAt.segs) ==>
      target.segs in stored && stored[target.segs] == disk[tmp.segs]
    requires disk' == if ok then stored - {tmp.segs} else stored
    ensures ok ==>
      tmp.segs !in disk' &&
      (tmp.segs in disk && tmp.segs != target.segs && tmp.segs != shotAt.segs ==>
        target.segs in disk' && disk'[target.segs] == disk[tmp.segs])
  {
  }

  /**
   * The inner `try` of the handler: store the upload, unlink the temporary
   * file once the copy has succeeded and build the reply; whatever throws on
   * the way becomes the reply's message.
   */
  method StoreAndRemove(disk: Disk, log: seq<Effect>, tmp: FsPath, ext: string, env: Env, shot: Shot,
                        key: string, date: string, cwd: seq<string>, host: string, ghost name: Result<StoredName>)
    returns (resp: Response, disk': Disk, log': seq<Effect>)
    requires NoUnlink(log)
    requires name == NameFor(ext, env.probe, date, key)
    ensures resp == StoreResponse(name, env, host)
    ensures |log'| > |log| && log'[..|log|] == log
    ensures UnlinkOnlyAfterCopy(log')
    ensures Unlink(tmp, true) in log' <==> resp.Success?
    ensures Unlink(tmp, env.unlinkError.None?) in log' <==> name.Ok? && env.copyError.None?
    ensures name.Ok? ==>
      var n := name.value;
      Copied(log', tmp, StoredAt(cwd, Filename(n)), env.copyError.None?) &&
      (n.VideoName? ==> ShotThenCopy(log', tmp, ShotAt(cwd, key), StoredAt(cwd, Filename(n)), shot))
    ensures resp.Success? ==>
      var target := StoredAt(cwd, Filename(name.value));
      tmp.segs !in disk' &&
      (tmp.segs in disk && tmp.segs != target.segs && tmp.segs != ShotAt(cwd, key).segs ==>
        target.segs in disk' && disk'[target.segs] == disk[tmp.segs])
    ensures '/' !in key && DirReadyBeforeWrite(log) ==> DirReadyBeforeWrite(log')
    ensures name.Err? ==> disk' == disk
    ensures name.Ok? ==>
      Confined(disk, disk', UploadWrites(name.value, tmp, cwd, shot, env), StoreDirs(name.value, cwd))
    ensures ext != VideoExt ==> NoVideoEffects(log'[|log|..])
    ensures ext == VideoExt ==> log'[|log|] == RunProbe(tmp)
    ensures name.Ok? ==> MkDirsWithin(log'[|log|..], StoreDirs(name.value, cwd))
    ensures Traced(disk, log, log', disk')
    ensures name.Err? ==> log' == log + [RunProbe(tmp)]
    ensures name.Ok? && env.copyError.Some? ==>
      EndsInCopy(log, log', tmp, StoredAt(cwd, Filename(name.value)), false)
    ensures name.Ok? && env.copyError.None? ==>
      CopiedThenUnlinked(log, log', tmp, StoredAt(cwd, Filename(name.value)), env.unlinkError.None?)
  {
    var url;
    url, disk', log' := Store(disk, log, tmp, ext, env.probe, shot, key, date, cwd, host, env.copyError);
    if url.Err? {
      if name.Ok? {
        ghost var target := StoredAt(cwd, Filename(name.value));
        CopyFailedLog(log, log', tmp, target, ShotAt(cwd, key), shot, name.value.VideoName?);
        ConfinedCopyFailed(disk, disk', name.value, tmp, cwd, shot, env);
      } else {
        ProbeFailedLog(log, tmp);
      }
      FailedReply(name, env, host, url);
      resp := Fail(url.msg);
      return;
    }
    StoredReply(name, env, host, url, key);
    ghost var target := StoredAt(cwd, Filename(name.value));
    ghost var copied, stored := log', disk';
    disk', log' := RemoveTemp(disk', log', tmp, env.unlinkError);
    ConfinedUnlink(disk, stored, disk', name.value, tmp, cwd, shot, env);
    UnlinkLog(log, copied, tmp, target, ShotAt(cwd, key), shot, name.value.VideoName?, env.unlinkError.None?);
    TracedTrans(disk, log, copied, stored, log', disk');
    MkDirsWithinAppend(log, copied, Unlink(tmp, env.unlinkError.None?), StoreDirs(name.value, cwd));
    UnlinkedContent(disk, stored, disk', tmp, target, ShotAt(cwd, key), ext == VideoExt, env.unlinkError.None?);
    resp := if env.unlinkError.Some? then Fail(env.unlinkError.value) else Success(url.value, key);
  }

  /**
   * The upload handler. An unaccepted type is answered before the file is
   * touched; otherwise the file is read and hashed and handed to the inner
   * `try`. The screenshot outcome `shot` shapes the effects but not the reply.
   */
  method Upload(file: UploadedFile, disk: Disk, env: Env, shot: Shot, hash: seq<byte> -> string,
                date: string, cwd: seq<string>, host: string)
    returns (resp: Response, disk': Disk, log: seq<Effect>)
    ensures resp == UploadResponse(file, disk, env, hash, date, host)
    ensures log == [] <==> !Accepted(file.ext)
    ensures log != [] ==> log[0] == Read(file.tmp)
    ensures UnlinkOnlyAfterCopy(log)
    ensures Unlink(file.tmp, true) in log <==> resp.Success?
    ensures Unlink(file.tmp, env.unlinkError.None?) in log <==>
      UploadName(file, disk, env.readError, env.probe, hash, date).Ok? && env.copyError.None?
    ensures UploadName(file, disk, env.readError, env.probe, hash, date).Ok? ==>
      var n := UploadName(file, disk, env.readError, env.probe, hash, date).value;
      Copied(log, file.tmp, StoredAt(cwd, Filename(n)), env.copyError.None?) &&
      (n.VideoName? ==> ShotThenCopy(log, file.tmp, ShotAt(cwd, n.key), StoredAt(cwd, Filename(n)), shot))
    ensures resp.Success? ==>
      var n := UploadName(file, disk, env.readError, env.probe, hash, date).value;
      var target := StoredAt(cwd, Filename(n));
      file.tmp.segs !in disk' &&
      (file.tmp.segs != target.segs && file.tmp.segs != ShotAt(cwd, n.key).segs ==>
        target.segs in disk' && disk'[target.segs] == disk[file.tmp.segs])
    ensures (forall b :: '/' !in hash(b)) ==> DirReadyBeforeWrite(log)
    ensures UploadName(file, disk, env.readError, env.probe, hash, date).Err? ==> disk' == disk
    ensures UploadName(file, disk, env.readError, env.probe, hash, date).Ok? ==>
      var n := UploadName(file, disk, env.readError, env.probe, hash, date).value;
      Confined(disk, disk', UploadWrites(n, file.tmp, cwd, shot, env), StoreDirs(n, cwd)) &&
      (n.AvatarName? ==> NoVideoEffects(log))
    ensures UploadName(file, disk, env.readError, env.probe, hash, date).Ok? ==>
      MkDirsWithin(log, StoreDirs(UploadName(file, disk, env.readError, env.probe, hash, date).value, cwd))
    ensures Accepted(file.ext) && file.ext.value == VideoExt && IsRegularFile(disk, file.tmp) ==>
      |log| > 1 && log[1] == RunProbe(file.tmp)
    ensures disk' == Replay(disk, log) && Honest(disk, log)
    ensures (forall b :: '/' !in hash(b)) ==> WritesFindDirs(disk, log)
    ensures Accepted(file.ext) && !IsRegularFile(disk, file.tmp) ==> log == [Read(file.tmp)]
    ensures Accepted(file.ext) && IsRegularFile(disk, file.tmp) &&
            UploadName(file, disk, env.readError, env.probe, hash, date).Err? ==>
      log == [Read(file.tmp), RunProbe(file.tmp)]
    ensures UploadName(file, disk, env.readError, env.probe, hash, date).Ok? && env.copyError.Some? ==>
      var n := UploadName(file, disk, env.readError, env.probe, hash, date).value;
      EndsInCopy([Read(file.tmp)], log, file.tmp, StoredAt(cwd, Filename(n)), false)
    ensures UploadName(file, disk, env.readError, env.probe, hash, date).Ok? && env.copyError.None? ==>
      var n := UploadName(file, disk, env.readError, env.probe, hash, date).value;
      CopiedThenUnlinked([Read(file.tmp)], log, file.tmp, StoredAt(cwd, Filename(n)), env.unlinkError.None?)
  {
    disk' := disk;
    if !Accepted(file.ext) {
      resp, log := Fail(TypeErrorMsg), [];
      TracedNone(disk, []);
      TracedFromStart(disk, [], disk');
      return;
    }
    log := [Read(file.tmp)];
    TracedStep(disk, [], Read(file.tmp));
    assert [] + [Read(file.tmp)] == log;
    if !IsRegularFile(disk, file.tmp) {
      resp := Fail(env.readError);
      TracedFromStart(disk, log, disk');
      ReadyOnDisk(disk, log);
      return;
    }
    var key := hash(disk[file.tmp.segs].content);
    ghost var read := log;
    resp, disk', log := StoreAndRemove(disk, log, file.tmp, file.ext.value, env, shot, key, date, cwd, host,
                                       UploadName(file, disk, env.readError, env.probe, hash, date));
    TracedTrans(disk, [], read, disk, log, disk');
    TracedFromStart(disk, log, disk');
    ReadyOnDisk(disk, log);
    assert log[0] == log[..1][0];
    if UploadName(file, disk, env.readError, env.probe, hash, date).Ok? {
      MkDirsWithinCons(log, StoreDirs(UploadName(file, disk, env.readError, env.probe, hash, date).value, cwd));
    }
  }
}
