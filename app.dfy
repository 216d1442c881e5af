/**
 * The Koa application: the directory static files are served from, the
 * custom static-file middleware, and the order in which the middleware
 * run. The static middleware maps `/assets/<rest>` to `<staticDir>/<rest>`
 * and answers with the file when it is a regular file; anything else is
 * passed on to the next middleware. It does not check that the joined path
 * stays below the static directory.
 */
module App {
  import opened Base
  import opened JsString
  import opened NodePath
  import opened FileSystem
  import Upload

  const AssetsPrefix := "/assets/"
  /** The content type of a served file whose extension `mime.lookup` does not know. */
  const OctetStream := "application/octet-stream"

  /** What the static middleware does with a request: answer it, or call `next()`. */
  datatype Decision = Serve(contentType: string, file: FsPath, content: seq<byte>) | PassOn

  /** `path.join(staticDir, path.replace(/^\/assets\//, ''))` for a path that starts with `/assets/`. */
  function AssetTarget(staticDir: seq<string>, path: string): FsPath
    requires StartsWith(path, AssetsPrefix)
  {
    PathJoin(staticDir, [path[|AssetsPrefix|..]])
  }

  /**
   * The static middleware's decision for a request path, given the disk and
   * `mime.lookup` (whose `false` is `None`).
   */
  function StaticDecision(path: string, staticDir: seq<string>, disk: Disk, lookup: FsPath -> Option<string>)
    : (d: Decision)
    ensures !StartsWith(path, AssetsPrefix) ==> d == PassOn
    ensures d.Serve? <==> StartsWith(path, AssetsPrefix) && IsRegularFile(disk, AssetTarget(staticDir, path))
    ensures d.Serve? ==>
      var target := AssetTarget(staticDir, path);
      d.file == target && d.content == disk[target.segs].content &&
      d.contentType == (if lookup(target).Some? then lookup(target).value else OctetStream)
  {
    if StartsWith(path, AssetsPrefix) then
      var filePath := AssetTarget(staticDir, path);
      if Exists(disk, filePath) && disk[filePath.segs].File? && !filePath.dirOnly then
        var contentType := match lookup(filePath) case Some(t) => t case None => OctetStream;
        Serve(contentType, filePath, disk[filePath.segs].content)
      else PassOn
    else PassOn
  }

  /** The part of Koa's `ctx` the static middleware reads and writes. */
  class Context {
    const path: string
    var contentType: string
    var body: Option<seq<byte>>

    constructor (path: string)
      ensures this.path == path && contentType == "" && body == None
    {
      this.path := path;
      contentType := "";
      body := None;
    }
  }

  /**
   * The static middleware: on a regular file below `/assets/` it sets
   * `ctx.type` and `ctx.body` and returns; otherwise it leaves `ctx` alone
   * and calls `next()` (reported as `callsNext`).
   */
  method StaticMiddleware(ctx: Context, staticDir: seq<string>, disk: Disk, lookup: FsPath -> Option<string>)
    returns (callsNext: bool)
    modifies ctx
    ensures var d := StaticDecision(ctx.path, staticDir, disk, lookup);
      callsNext == d.PassOn? &&
      (d.Serve? ==> ctx.contentType == d.contentType && ctx.body == Some(d.content)) &&
      (d.PassOn? ==> ctx.contentType == old(ctx.contentType) && ctx.body == old(ctx.body))
  {
    callsNext := true;
    if StartsWith(ctx.path, AssetsPrefix) {
      var filePath := PathJoin(staticDir, [ctx.path[|AssetsPrefix|..]]);
      if Exists(disk, filePath) {
        if disk[filePath.segs].File? && !filePath.dirOnly {
          var t := lookup(filePath);
          ctx.contentType := if t.Some? then t.value else OctetStream;
          ctx.body := Some(disk[filePath.segs].content);
          callsNext := false;
        }
      }
    }
  }

  /**
   * The directory files are served from: `path.join(process.cwd(), 'assets')`,
   * created at start-up when it is missing.
   */
  method PrepareStaticDir(disk: Disk, cwd: seq<string>) returns (staticDir: seq<string>, disk': Disk)
    ensures staticDir == PathJoin(cwd, ["assets"]).segs
    ensures staticDir in disk'
    ensures forall k :: k in disk ==> k in disk' && disk'[k] == disk[k]
    ensures disk' == if Exists(disk, PathJoin(cwd, ["assets"])) then disk else MkDirs(disk, staticDir)
  {
    var dir := PathJoin(cwd, ["assets"]);
    staticDir := dir.segs;
    disk' := disk;
    if !Exists(disk, dir) {
      disk' := MkDirs(disk, dir.segs);
      forall k | k in disk ensures k in disk' && disk'[k] == disk[k] {
        MkDirsKeeps(disk, dir.segs, k);
      }
    }
  }

  // ---------------------------------------------------------------- the middleware stack

  datatype Middleware = Cors | Static | KoaBody | BodyParser | Logger | Jwt | Router

  /** The order of the `app.use` calls. */
  const Stack: seq<Middleware> := [Cors, Static, KoaBody, BodyParser, Logger, Jwt, Router]

  /** A request as the stack sees it: its path and whether it carries a valid token. */
  datatype Request = Request(path: string, validToken: bool)

  /** How a request ends: served by the static middleware, refused by the JWT check, or routed. */
  datatype Outcome = Served(d: Decision) | Unauthorized | Routed

  /** The middleware that ran, in order, and how the request ended. */
  datatype Reply = Reply(trace: seq<Middleware>, outcome: Outcome)

  /** The `unless` list of the JWT middleware: two exact paths and three patterns. */
  predicate JwtExempt(path: string) {
    path == "/api/admin/auth/signin" || path == "/api/admin/auth/init" ||
    Contains(path, "/api/public") ||   // /\/api\/public\/*/ matches anywhere, with zero or more `/`
    Contains(path, "/api/oauth") ||    // /\/api\/oauth\/*/
    StartsWith(path, AssetsPrefix)     // /^\/assets\/.*/
  }

  /**
   * What one middleware does with a request, given the static middleware's
   * decision `d`: end it with an outcome, or call `next()` (`None`).
   */
  function Handle(m: Middleware, req: Request, d: Decision): Option<Outcome> {
    match m
    case Static => if d.Serve? then Some(Served(d)) else None
    case Jwt => if JwtExempt(req.path) || req.validToken then None else Some(Unauthorized)
    case Router => Some(Routed)
    case _ => None
  }

  /** Running `Stack[i..]` on a request: each middleware either ends the request or calls `next()`. */
  function Run(i: nat, req: Request, d: Decision): (r: Reply)
    requires i <= |Stack|
    ensures |r.trace| >= 1 || i == |Stack|
    ensures r.trace <= Stack[i..]
    decreases |Stack| - i
  {
    if i == |Stack| then Reply([], Routed)
    else
      assert Stack[i..] == [Stack[i]] + Stack[i + 1..];
      match Handle(Stack[i], req, d)
      case Some(o) => Reply([Stack[i]], o)
      case None =>
        var rest := Run(i + 1, req, d);
        Reply([Stack[i]] + rest.trace, rest.outcome)
  }

  /** The whole application on one request; the static middleware decides from the disk. */
  function Dispatch(req: Request, staticDir: seq<string>, disk: Disk, lookup: FsPath -> Option<string>): Reply {
    Run(0, req, StaticDecision(req.path, staticDir, disk, lookup))
  }

  /** A served asset ends the request before the body parsers and the JWT check run. */
  lemma ServedAssetShortCircuits(req: Request, staticDir: seq<string>, disk: Disk, lookup: FsPath -> Option<string>)
    requires StaticDecision(req.path, staticDir, disk, lookup).Serve?
    ensures Dispatch(req, staticDir, disk, lookup) ==
      Reply([Cors, Static], Served(StaticDecision(req.path, staticDir, disk, lookup)))
  {
    StaticServes(req, StaticDecision(req.path, staticDir, disk, lookup));
  }

  lemma StaticServes(req: Request, d: Decision)
    requires d.Serve?
    ensures Run(0, req, d) == Reply([Cors, Static], Served(d))
  {
    assert Run(1, req, d) == Reply([Static], Served(d));
  }

  /** From the JWT check on: a request without a valid token and off the `unless` list stops there. */
  lemma FromJwt(req: Request, d: Decision)
    ensures Run(5, req, d) ==
      if JwtExempt(req.path) || req.validToken then Reply(Stack[5..], Routed) else Reply(Stack[5..6], Unauthorized)
  {
    assert Stack[5] == Jwt && Stack[6] == Router;
    assert Stack[5..] == [Jwt, Router] && Stack[5..6] == [Jwt];
    assert Run(6, req, d) == Reply([Router], Routed);
  }

  /** Middleware that all call `next()` add themselves, in order, to the trace of the JWT check on. */
  lemma {:induction false} PassesTo(i: nat, req: Request, d: Decision)
    requires i <= 5
    requires forall j :: i <= j < 5 ==> Handle(Stack[j], req, d).None?
    ensures Run(i, req, d) == Reply(Stack[i..5] + Run(5, req, d).trace, Run(5, req, d).outcome)
    decreases 5 - i
  {
    if i < 5 {
      var tail, rest := Run(5, req, d), Run(i + 1, req, d);
      PassesTo(i + 1, req, d);
      assert Run(i, req, d) == Reply([Stack[i]] + rest.trace, rest.outcome);
      SliceIsHeadThenRest(Stack, i, 5);
      ConcatAssociates([Stack[i]], Stack[i + 1..5], tail.trace, Stack[i..5] + tail.trace, rest.trace);
    }
  }

  /** Every other request passes through the body parsers to the JWT check, which decides how it ends. */
  lemma OthersReachJwt(req: Request, staticDir: seq<string>, disk: Disk, lookup: FsPath -> Option<string>)
    requires StaticDecision(req.path, staticDir, disk, lookup).PassOn?
    ensures Dispatch(req, staticDir, disk, lookup) ==
      if JwtExempt(req.path) || req.validToken then Reply(Stack, Routed) else Reply(Stack[..6], Unauthorized)
  {
    PassOnReachesJwt(req, StaticDecision(req.path, staticDir, disk, lookup));
  }

  lemma PassOnReachesJwt(req: Request, d: Decision)
    requires d.PassOn?
    ensures Run(0, req, d) ==
      if JwtExempt(req.path) || req.validToken then Reply(Stack, Routed) else Reply(Stack[..6], Unauthorized)
  {
    assert forall j :: 0 <= j < 5 ==> Stack[j] in {Cors, Static, KoaBody, BodyParser, Logger};
    PassesTo(0, req, d);
    FromJwt(req, d);
    assert Stack[..5] + Stack[5..] == Stack;
    assert Stack[..5] + Stack[5..6] == Stack[..6];
  }

  /** A request below `/assets/` is never refused for a missing token, served or not. */
  lemma AssetsNeverUnauthorized(req: Request, staticDir: seq<string>, disk: Disk, lookup: FsPath -> Option<string>)
    requires StartsWith(req.path, AssetsPrefix)
    ensures Dispatch(req, staticDir, disk, lookup).outcome != Unauthorized
  {
    var d := StaticDecision(req.path, staticDir, disk, lookup);
    if d.PassOn? {
      PassOnReachesJwt(req, d);
    } else {
      StaticServes(req, d);
    }
  }

  /**
   * The join does not keep the path inside the static directory: `..`
   * segments climb out of it, and a file there is served.
   */
  lemma TraversalLeavesStaticDir(cwd: seq<string>, disk: Disk, lookup: FsPath -> Option<string>)
    requires AllClean(cwd)
    ensures AssetTarget(PathJoin(cwd, ["assets"]).segs, "/assets/../secret") == FsPath(cwd + ["secret"], false)
    ensures IsRegularFile(disk, FsPath(cwd + ["secret"], false)) ==>
      StaticDecision("/assets/../secret", PathJoin(cwd, ["assets"]).segs, disk, lookup).Serve?
  {
    JoinCleanLeaf(cwd, "assets");
    ClimbingTarget(cwd + ["assets"]);
    DotDotPops(cwd, "assets", ["secret"]);
    NormalizeClean(cwd, ["secret"]);
  }

  /** The request `/assets/../secret` joins `..` and `secret` onto the static directory. */
  lemma ClimbingTarget(staticDir: seq<string>)
    ensures AssetTarget(staticDir, "/assets/../secret") == FsPath(Normalize(staticDir, [".."] + ["secret"]), false)
  {
    var rest := "../secret";
    assert "/assets/../secret"[|AssetsPrefix|..] == rest;
    JoinOne(rest);
    SplitAtLast(rest, 2, "..", "secret");
    SplitNoSlash("..");
  }

  /**
   * A file the upload handler stored as `assets/<filename>` is what a
   * request for `/assets/<filename>` resolves to, and it is served.
   */
  lemma UploadedAssetIsServed(cwd: seq<string>, filename: string, disk: Disk, lookup: FsPath -> Option<string>)
    requires filename != ""
    requires IsRegularFile(disk, Upload.StoredAt(cwd, filename))
    ensures var path := AssetsPrefix + filename;
      var d := StaticDecision(path, PathJoin(cwd, ["assets"]).segs, disk, lookup);
      d.Serve? && d.file == Upload.StoredAt(cwd, filename) &&
      d.content == disk[Upload.StoredAt(cwd, filename).segs].content
  {
    var path := AssetsPrefix + filename;
    assert path[..|AssetsPrefix|] == AssetsPrefix;
    assert path[|AssetsPrefix|..] == filename;
    JoinNested(cwd, "assets", filename);
  }
}
