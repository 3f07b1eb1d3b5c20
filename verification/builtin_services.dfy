/** The built-in service list (src/services/index.js): one descriptor per
    service, present or absent according to the environment, in a fixed
    order. A descriptor is the service name, the class that implements it
    and the constructor arguments. */
module BuiltInServices {
  import opened Wrappers

  /** A constructor argument as written in a descriptor. */
  datatype Arg = Text(s: string) | Number(n: int) | Flag(b: bool) | Undefined

  /** `[name, serviceClass, args]` */
  datatype Descriptor = Descriptor(name: string, serviceClass: string, args: seq<Arg>)

  /** The token that stands for the container itself. */
  const ContainerToken := "@service_container"

  const DefaultPort := 3000

  /** `process.env[key]`: absent keys read as undefined. */
  function EnvGet(env: map<string, string>, key: string): Option<string> {
    if key in env then Some(env[key]) else None
  }

  /** `process.env[key]` is truthy: set and not empty. */
  predicate EnvSet(env: map<string, string>, key: string) {
    key in env && env[key] != ""
  }

  /** `process.env[key] === "true"` */
  predicate EnvTrue(env: map<string, string>, key: string) {
    EnvGet(env, key) == Some("true")
  }

  /** `process.env[key]` as an argument. */
  function EnvArg(env: map<string, string>, key: string): Arg {
    if key in env then Text(env[key]) else Undefined
  }

  /** Whether the s3 descriptor is present. */
  predicate S3Configured(env: map<string, string>) {
    EnvSet(env, "S3_ENDPOINT") && EnvSet(env, "S3_ACCESS_KEY") && EnvSet(env, "S3_SECRET_KEY")
  }

  function LoggerDescriptor(env: map<string, string>, cwd: string): Descriptor {
    Descriptor("logger", "Logger", [
      Text(ContainerToken),
      Text(if EnvSet(env, "LOG_DIRECTORY") then env["LOG_DIRECTORY"] else cwd + "/logs"),
      Flag(EnvTrue(env, "DEBUG"))])
  }

  function SocketDescriptor(env: map<string, string>): Descriptor {
    Descriptor("socketio", "SocketIO", [
      Text(ContainerToken),
      if EnvSet(env, "PORT") then Text(env["PORT"]) else Number(DefaultPort)])
  }

  function S3Descriptor(env: map<string, string>): Descriptor
    requires S3Configured(env)
  {
    Descriptor("s3", "S3", [
      Text(ContainerToken), Text(env["S3_ENDPOINT"]), EnvArg(env, "S3_PORT"),
      Flag(EnvTrue(env, "S3_USE_SSL")), Text(env["S3_ACCESS_KEY"]), Text(env["S3_SECRET_KEY"])])
  }

  /** The names of a descriptor list, in order. */
  function Names(ds: seq<Descriptor>): (names: seq<string>)
    ensures |names| == |ds|
    ensures forall i :: 0 <= i < |ds| ==> names[i] == ds[i].name
  {
    seq(|ds|, i requires 0 <= i < |ds| => ds[i].name)
  }

  lemma NamesAppend(a: seq<Descriptor>, b: seq<Descriptor>)
    ensures Names(a + b) == Names(a) + Names(b)
  {
  }

  /** The list, with the entries whose condition fails already filtered out. */
  function BuiltIns(env: map<string, string>, cwd: string): seq<Descriptor> {
    [LoggerDescriptor(env, cwd), Descriptor("template-manager", "TemplateManager", [Text(ContainerToken)])] +
    (if EnvSet(env, "DATABASE_URL")
      then [Descriptor("database", "Database", [Text(ContainerToken), Text(env["DATABASE_URL"])])] else []) +
    (if EnvSet(env, "CACHE_URL")
      then [Descriptor("cache", "Cache", [Text(ContainerToken), Text(env["CACHE_URL"])])] else []) +
    (if S3Configured(env) then [S3Descriptor(env)] else []) +
    [SocketDescriptor(env)]
  }

  /** The services are logger, template-manager, then database, cache and s3
      when configured, then socketio. */
  lemma BuiltInNames(env: map<string, string>, cwd: string)
    ensures Names(BuiltIns(env, cwd)) ==
      ["logger", "template-manager"] +
      (if EnvSet(env, "DATABASE_URL") then ["database"] else []) +
      (if EnvSet(env, "CACHE_URL") then ["cache"] else []) +
      (if S3Configured(env) then ["s3"] else []) +
      ["socketio"]
  {
    var head := [LoggerDescriptor(env, cwd), Descriptor("template-manager", "TemplateManager", [Text(ContainerToken)])];
    var database := if EnvSet(env, "DATABASE_URL")
      then [Descriptor("database", "Database", [Text(ContainerToken), Text(env["DATABASE_URL"])])] else [];
    var cache := if EnvSet(env, "CACHE_URL")
      then [Descriptor("cache", "Cache", [Text(ContainerToken), Text(env["CACHE_URL"])])] else [];
    var s3 := if S3Configured(env) then [S3Descriptor(env)] else [];
    var last := [SocketDescriptor(env)];
    assert BuiltIns(env, cwd) == head + database + cache + s3 + last;
    assert Names(head) == ["logger", "template-manager"];
    assert Names(database) == if EnvSet(env, "DATABASE_URL") then ["database"] else [];
    assert Names(cache) == if EnvSet(env, "CACHE_URL") then ["cache"] else [];
    assert Names(s3) == if S3Configured(env) then ["s3"] else [];
    assert Names(last) == ["socketio"];
    NamesAppend(head, database);
    NamesAppend(head + database, cache);
    NamesAppend(head + database + cache, s3);
    NamesAppend(head + database + cache + s3, last);
  }

  /** Every service is constructed with the container as its first
      argument. */
  lemma BuiltInsTakeContainer(env: map<string, string>, cwd: string)
    ensures forall d :: d in BuiltIns(env, cwd) ==> |d.args| >= 1 && d.args[0] == Text(ContainerToken)
  {
  }

  /** The logger comes first and the socket service last, with their
      environment-derived arguments. */
  lemma BuiltInEnds(env: map<string, string>, cwd: string)
    ensures var ds := BuiltIns(env, cwd);
      |ds| >= 3 && ds[0] == LoggerDescriptor(env, cwd) && ds[|ds| - 1] == SocketDescriptor(env)
  {
    var ds := BuiltIns(env, cwd);
    assert Names(ds)[0] == "logger";
  }
}
