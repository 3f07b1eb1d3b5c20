/** The interactive-storage extension object: its configuration defaults,
    the routes `load` registers, and the bucket check it starts
    (src/extensions/interactive-storage/index.js). */
module StorageExtension {
  import opened Wrappers

  const DefaultPath := "/storage"
  const DefaultBucket := "dropbox"
  const DefaultMaxFileSize := 100 * 1024 * 1024

  /** The warnings of a load without one of the services it needs. */
  const S3Missing := "InteractiveStorageExtension: s3 service not found, skipping InteractiveStorage setup"
  const ExpressMissing := "InteractiveStorageExtension: express service not found, skipping InteractiveStorage setup"

  /** The seven route classes of the extension. */
  datatype RouteKind = Upload | Browse | Download | Info | Delete | CreateFolder | DeleteFolder

  /** A middleware instance attached to a route (only the upload parser
      exists here, configured with the size ceiling). */
  datatype Middleware = Multer(maxFileSize: int)

  /** A route instance: its class, its URL path, and its POST middlewares. */
  datatype RouteDecl = RouteDecl(kind: RouteKind, path: string, postMiddlewares: seq<Middleware>)

  /** What `load` and the bucket check do to the outside world, in order. */
  datatype Effect =
    | LogInfo(message: string)
    | LogWarn(message: string)
    | LogError(message: string)
    | ListBuckets
    | CreateBucket(bucket: string)
    | RegisterRoutes(routes: seq<RouteDecl>)

  /** The URL suffix of each route under the extension's base path. */
  function RouteSuffix(kind: RouteKind): string {
    match kind
    case Upload => "/upload"
    case Browse => "/browse"
    case Download => "/download/:fileName"
    case Info => "/info/:fileName"
    case Delete => "/delete"
    case CreateFolder => "/create-folder"
    case DeleteFolder => "/delete-folder"
  }

  /** The route order of `load`. */
  const RouteOrder: seq<RouteKind> := [Upload, Browse, Download, Info, Delete, CreateFolder, DeleteFolder]

  /** `#ensureBucket` once `listBuckets` has answered: the bucket is created
      only when no listed bucket carries its name, and every failure ends in
      an error log, never in a rejection. */
  function EnsureBucket(bucket: string, listed: Result<seq<string>, string>, createError: Option<string>): (effects: seq<Effect>)
    ensures CreateBucket(bucket) in effects <==> listed.Success? && bucket !in listed.value
    ensures forall e :: e in effects ==> e.LogInfo? || e.LogError? || e == CreateBucket(bucket)
    ensures listed.Failure? ==> effects == [LogError("Error ensuring bucket exists: " + listed.error)]
    ensures listed.Success? && bucket in listed.value ==> effects == []
    ensures listed.Success? && bucket !in listed.value && createError.Some? ==>
      effects == [CreateBucket(bucket), LogError("Error ensuring bucket exists: " + createError.value)]
    ensures listed.Success? && bucket !in listed.value && createError.None? ==>
      effects == [CreateBucket(bucket), LogInfo("Created S3 bucket: " + bucket)]
  {
    match listed
    case Failure(message) => [LogError("Error ensuring bucket exists: " + message)]
    case Success(names) =>
      if bucket in names then []
      else
        [CreateBucket(bucket)] +
        match createError
        case Some(message) => [LogError("Error ensuring bucket exists: " + message)]
        case None => [LogInfo("Created S3 bucket: " + bucket)]
  }

  /** The extension object, with the configuration its constructor settles.
      `bucketName` is a static field in the source; one instance is modelled. */
  class InteractiveStorageExtension {
    var path: string
    var bucketName: string
    var maxFileSize: int
    var middlewares: seq<Middleware>

    /** Options are `None` when undefined; `path` also falls back to the
        default when it is the empty string, and `middlewares` when null. */
    constructor(pathOpt: Option<string>, bucketOpt: Option<string>, maxFileSizeOpt: Option<int>, middlewaresOpt: Option<seq<Middleware>>)
      ensures path == (if pathOpt.None? || pathOpt.value == "" then DefaultPath else pathOpt.value)
      ensures bucketName == (if bucketOpt.None? then DefaultBucket else bucketOpt.value)
      ensures maxFileSize == (if maxFileSizeOpt.None? then DefaultMaxFileSize else maxFileSizeOpt.value)
      ensures middlewares == (if middlewaresOpt.None? then [] else middlewaresOpt.value)
    {
      var p := if pathOpt.None? then DefaultPath else pathOpt.value;
      path := if p == "" then DefaultPath else p;
      bucketName := if bucketOpt.None? then DefaultBucket else bucketOpt.value;
      maxFileSize := if maxFileSizeOpt.None? then DefaultMaxFileSize else maxFileSizeOpt.value;
      middlewares := if middlewaresOpt.None? then [] else middlewaresOpt.value;
    }

    /** `load(container)`, given whether the container yields the s3 and the
        express services. Without either it only warns (s3 is looked up
        first). Otherwise it starts the bucket check, registers the seven
        routes under `path` in a fixed order, with the upload parser as the
        upload route's only POST middleware, and logs the base path. */
    method Load(hasS3: bool, hasExpress: bool) returns (effects: seq<Effect>)
      ensures !hasS3 ==> effects == [LogWarn(S3Missing)]
      ensures hasS3 && !hasExpress ==> effects == [LogWarn(ExpressMissing)]
      ensures hasS3 && hasExpress ==>
        |effects| == 3 && effects[0] == ListBuckets && effects[1].RegisterRoutes? &&
        effects[2] == LogInfo("InteractiveStorage extension loaded at " + path)
      ensures hasS3 && hasExpress ==>
        var routes := effects[1].routes;
        |routes| == |RouteOrder| &&
        forall i :: 0 <= i < |routes| ==>
          routes[i].kind == RouteOrder[i] && routes[i].path == path + RouteSuffix(RouteOrder[i]) &&
          routes[i].postMiddlewares == (if i == 0 then [Multer(maxFileSize)] else [])
    {
      if !hasS3 {
        return [LogWarn(S3Missing)];
      }
      if !hasExpress {
        return [LogWarn(ExpressMissing)];
      }
      // The bucket check runs up to its first await: the bucket listing.
      effects := [ListBuckets];
      var routes := [
        RouteDecl(Upload, path + "/upload", []),
        RouteDecl(Browse, path + "/browse", []),
        RouteDecl(Download, path + "/download/:fileName", []),
        RouteDecl(Info, path + "/info/:fileName", []),
        RouteDecl(Delete, path + "/delete", []),
        RouteDecl(CreateFolder, path + "/create-folder", []),
        RouteDecl(DeleteFolder, path + "/delete-folder", [])
      ];
      routes := routes[0 := routes[0].(postMiddlewares := [Multer(maxFileSize)])];
      effects := effects + [RegisterRoutes(routes), LogInfo("InteractiveStorage extension loaded at " + path)];
    }
  }
}
