/** The kernel (src/kernel/index.js): it registers the built-in services
    and then the caller's services into the dependency container, resolving
    the argument tokens, and boots them all one after the other. The
    container is represented by the log of what the kernel asks of it. */
module Kernel {
  import opened Wrappers
  import opened BuiltInServices
  import opened Discovery
  import SocketIO

  /** The token for the socket-connection callback. */
  const ConnectionToken := "@onConnection"

  /** An argument once resolved: the container itself, or a plain value. */
  datatype Resolved = ContainerRef | Plain(arg: Arg)

  /** What the kernel does, in order. */
  datatype KernelEvent =
    | MakeDir(path: string)
    | LoadEnv(secretsPath: string)
    | ClearConsole
    | RequireBuiltIns
    | Register(name: string, serviceClass: string, args: seq<Resolved>)
    | Compile
    | BootService(name: string)

  /** One argument: the container token gives the container, the connection
      token gives the kernel's connection callback field, anything else
      passes through unchanged. */
  function ResolveArg(a: Arg, onSocketConnection: Arg): (r: Resolved)
    ensures a == Text(ContainerToken) ==> r == ContainerRef
    ensures a == Text(ConnectionToken) ==> r == Plain(onSocketConnection)
    ensures a != Text(ContainerToken) && a != Text(ConnectionToken) ==> r == Plain(a)
  {
    if a == Text(ContainerToken) then ContainerRef
    else if a == Text(ConnectionToken) then Plain(onSocketConnection)
    else Plain(a)
  }

  /** The argument list, resolved one by one: same length, same order. */
  function ResolveArgs(args: seq<Arg>, onSocketConnection: Arg): (r: seq<Resolved>)
    ensures |r| == |args|
    ensures forall i :: 0 <= i < |args| ==> r[i] == ResolveArg(args[i], onSocketConnection)
  {
    seq(|args|, i requires 0 <= i < |args| => ResolveArg(args[i], onSocketConnection))
  }

  /** One registration pass: each descriptor registered in order, then one
      compile. */
  function RegistrationPass(ds: seq<Descriptor>, onSocketConnection: Arg): (events: seq<KernelEvent>)
    ensures |events| == |ds| + 1 && events[|ds|] == Compile
    ensures forall i :: 0 <= i < |ds| ==>
      events[i] == Register(ds[i].name, ds[i].serviceClass, ResolveArgs(ds[i].args, onSocketConnection))
  {
    seq(|ds|, i requires 0 <= i < |ds| =>
      Register(ds[i].name, ds[i].serviceClass, ResolveArgs(ds[i].args, onSocketConnection))) + [Compile]
  }

  /** How many `Compile` events a log holds. */
  function CompileCount(events: seq<KernelEvent>): nat {
    if events == [] then 0
    else (if events[0] == Compile then 1 else 0) + CompileCount(events[1..])
  }

  lemma {:induction false} CompileCountAppend(a: seq<KernelEvent>, b: seq<KernelEvent>)
    ensures CompileCount(a + b) == CompileCount(a) + CompileCount(b)
  {
    if a == [] {
      assert a + b == b;
    } else {
      assert (a + b)[1..] == a[1..] + b;
      CompileCountAppend(a[1..], b);
    }
  }

  /** A log made only of registrations holds no compile. */
  lemma {:induction false} NoCompileInRegistrations(events: seq<KernelEvent>)
    requires forall i :: 0 <= i < |events| ==> events[i].Register?
    ensures CompileCount(events) == 0
  {
    if events != [] {
      NoCompileInRegistrations(events[1..]);
    }
  }

  /** Each registration pass compiles the container exactly once. */
  lemma RegistrationPassCompilesOnce(ds: seq<Descriptor>, onSocketConnection: Arg)
    ensures CompileCount(RegistrationPass(ds, onSocketConnection)) == 1
  {
    var events := RegistrationPass(ds, onSocketConnection);
    assert events == events[..|ds|] + [Compile];
    CompileCountAppend(events[..|ds|], [Compile]);
    NoCompileInRegistrations(events[..|ds|]);
  }

  /** The services booted, in order, up to and including the first whose
      boot rejects. */
  function BootedCount(names: seq<string>, bootError: nat -> Option<string>): (k: nat)
    ensures k <= |names|
    ensures forall i :: 0 <= i < k - 1 ==> bootError(i).None?
    ensures k < |names| ==> k > 0 && bootError(k - 1).Some?
    ensures k == |names| ==> forall i :: 0 <= i < |names| - 1 ==> bootError(i).None?
    decreases |names|
  {
    if names == [] then 0
    else
      var k := BootedCount(names[..|names| - 1], bootError);
      if k < |names| - 1 then k
      else if k > 0 && bootError(k - 1).Some? then k
      else |names|
  }

  class Kernel {
    /** The caller's service descriptors. */
    var services: seq<Descriptor>
    /** The connection callback field, which the constructor never sets. */
    var onSocketConnection: Arg
    /** What the kernel has done so far. */
    var log: seq<KernelEvent>

    /** `new Kernel({services, onConnection})`: keeps the services, ignores
        `onConnection`, and creates `<cwd>/src` when it is missing. */
    constructor(services: seq<Descriptor>, onConnection: Arg, cwd: string, srcExists: bool)
      ensures this.services == services
      ensures onSocketConnection == Undefined
      ensures log == (if srcExists then [] else [MakeDir(cwd + "/src")])
    {
      this.services := services;
      onSocketConnection := Undefined;
      log := if srcExists then [] else [MakeDir(cwd + "/src")];
    }

    /** `#registerServices`: registers each descriptor in order with its
        arguments resolved, then compiles the container once. */
    method RegisterServices(ds: seq<Descriptor>)
      modifies this
      ensures log == old(log) + RegistrationPass(ds, onSocketConnection)
      ensures services == old(services) && onSocketConnection == old(onSocketConnection)
    {
      ghost var start := log;
      for i := 0 to |ds|
        invariant log == start + RegistrationPass(ds, onSocketConnection)[..i]
        invariant services == old(services) && onSocketConnection == old(onSocketConnection)
      {
        assert RegistrationPass(ds, onSocketConnection)[..i + 1] ==
          RegistrationPass(ds, onSocketConnection)[..i] + [RegistrationPass(ds, onSocketConnection)[i]];
        log := log + [Register(ds[i].name, ds[i].serviceClass, ResolveArgs(ds[i].args, onSocketConnection))];
      }
      assert RegistrationPass(ds, onSocketConnection) == RegistrationPass(ds, onSocketConnection)[..|ds|] + [Compile];
      log := log + [Compile];
    }

    /** The boot loop: boots the named services one after another, each
        finished before the next starts; the first rejection ends the loop
        with that error. `bootError(i)` is the rejection of the `i`-th boot,
        if any. */
    method BootServices(names: seq<string>, bootError: nat -> Option<string>) returns (r: Result<(), string>)
      modifies this
      ensures log == old(log) + BootLog(names, bootError)
      ensures r.Success? <==> forall i :: 0 <= i < |names| ==> bootError(i).None?
      ensures r.Failure? ==> r == Failure(bootError(BootedCount(names, bootError) - 1).value)
      ensures services == old(services) && onSocketConnection == old(onSocketConnection)
    {
      ghost var start := log;
      var i := 0;
      while i < |names|
        invariant 0 <= i <= |names|
        invariant log == start + Boots(names, i)
        invariant forall j :: 0 <= j < i ==> bootError(j).None?
        invariant services == old(services) && onSocketConnection == old(onSocketConnection)
      {
        assert Boots(names, i + 1) == Boots(names, i) + [BootService(names[i])];
        log := log + [BootService(names[i])];
        if bootError(i).Some? {
          BootedCountStops(names, bootError, i);
          assert BootLog(names, bootError) == Boots(names, i + 1);
          return Failure(bootError(i).value);
        }
        i := i + 1;
      }
      BootedCountAll(names, bootError);
      assert BootLog(names, bootError) == Boots(names, |names|);
      r := Success(());
    }

    /** `boot(clearConsole, secretsPath)`: loads the environment file, clears
        the console if asked, takes the built-in list (`env` is the
        environment as it stands after loading the file), registers the
        built-ins and then the caller's services, and runs the boot loop over
        the built-ins followed by the caller's services. */
    method Boot(clearConsole: bool, secretsPath: string, env: map<string, string>, cwd: string,
                bootError: nat -> Option<string>)
      returns (r: Result<(), string>)
      modifies this
      ensures log == old(log) + Prelude(clearConsole, secretsPath) +
        RegistrationPass(BuiltIns(env, cwd), onSocketConnection) +
        RegistrationPass(services, onSocketConnection) +
        BootLog(Names(BuiltIns(env, cwd) + services), bootError)
      ensures r.Success? <==> forall i :: 0 <= i < |BuiltIns(env, cwd) + services| ==> bootError(i).None?
      ensures r.Failure? ==>
        r == Failure(bootError(BootedCount(Names(BuiltIns(env, cwd) + services), bootError) - 1).value)
      ensures services == old(services) && onSocketConnection == old(onSocketConnection)
    {
      log := log + Prelude(clearConsole, secretsPath);
      var builtIns := BuiltIns(env, cwd);
      RegisterServices(builtIns);
      RegisterServices(services);
      r := BootServices(Names(builtIns + services), bootError);
    }
  }

  /** What the boot does before registering anything. */
  function Prelude(clearConsole: bool, secretsPath: string): (events: seq<KernelEvent>)
    ensures |events| >= 2 && events[0] == LoadEnv(secretsPath) && events[|events| - 1] == RequireBuiltIns
    ensures ClearConsole in events <==> clearConsole
  {
    [LoadEnv(secretsPath)] + (if clearConsole then [ClearConsole] else []) + [RequireBuiltIns]
  }

  /** The boots the loop performs: the services in order up to and including
      the first that rejects. */
  function BootLog(names: seq<string>, bootError: nat -> Option<string>): (events: seq<KernelEvent>)
    ensures |events| == BootedCount(names, bootError)
    ensures forall i :: 0 <= i < |events| ==> events[i] == BootService(names[i])
  {
    Boots(names, BootedCount(names, bootError))
  }

  /** The boots of the first `k` services, in order. */
  function Boots(names: seq<string>, k: nat): (events: seq<KernelEvent>)
    requires k <= |names|
    ensures |events| == k
    ensures forall i :: 0 <= i < k ==> events[i] == BootService(names[i])
  {
    seq(k, i requires 0 <= i < k => BootService(names[i]))
  }

  /** Once the `i`-th boot rejects after all earlier ones succeeded, exactly
      `i + 1` services have been booted. */
  lemma {:induction false} BootedCountStops(names: seq<string>, bootError: nat -> Option<string>, i: nat)
    requires i < |names| && bootError(i).Some?
    requires forall j :: 0 <= j < i ==> bootError(j).None?
    ensures BootedCount(names, bootError) == i + 1
    decreases |names|
  {
    var n := |names| - 1;
    if i < n {
      BootedCountStops(names[..n], bootError, i);
    } else {
      BootedCountAll(names[..n], bootError);
    }
  }

  /** When no boot rejects, every service is booted. */
  lemma {:induction false} BootedCountAll(names: seq<string>, bootError: nat -> Option<string>)
    requires forall j :: 0 <= j < |names| ==> bootError(j).None?
    ensures BootedCount(names, bootError) == |names|
    decreases |names|
  {
    if names != [] {
      BootedCountAll(names[..|names| - 1], bootError);
    }
  }

  /** A boot compiles the container exactly twice: once per registration
      pass. */
  lemma BootCompilesTwice(builtIns: seq<Descriptor>, services: seq<Descriptor>, onSocketConnection: Arg)
    ensures CompileCount(RegistrationPass(builtIns, onSocketConnection) + RegistrationPass(services, onSocketConnection)) == 2
  {
    CompileCountAppend(RegistrationPass(builtIns, onSocketConnection), RegistrationPass(services, onSocketConnection));
    RegistrationPassCompilesOnce(builtIns, onSocketConnection);
    RegistrationPassCompilesOnce(services, onSocketConnection);
  }

  /** The boot loop always boots the logger, and boots it first; the
      caller's services come after every built-in. */
  lemma LoggerBootsFirst(env: map<string, string>, cwd: string, services: seq<Descriptor>,
                         bootError: nat -> Option<string>)
    ensures var boots := BootLog(Names(BuiltIns(env, cwd) + services), bootError);
      |boots| >= 1 && boots[0] == BootService("logger")
    ensures var boots := BootLog(Names(BuiltIns(env, cwd) + services), bootError);
      forall i :: 0 <= i < |boots| && i < |BuiltIns(env, cwd)| ==> boots[i] == BootService(BuiltIns(env, cwd)[i].name)
    ensures var boots := BootLog(Names(BuiltIns(env, cwd) + services), bootError);
      forall i :: |BuiltIns(env, cwd)| <= i < |boots| ==> boots[i] == BootService(services[i - |BuiltIns(env, cwd)|].name)
  {
    var ds := BuiltIns(env, cwd);
    BuiltInEnds(env, cwd);
    var names := Names(ds + services);
    assert names[0] == "logger";
  }

  /** Once the `k`-th boot rejects, the loop boots at most `k + 1`
      services. */
  lemma {:induction false} BootedCountAtMost(names: seq<string>, bootError: nat -> Option<string>, k: nat)
    requires k < |names| && bootError(k).Some?
    ensures BootedCount(names, bootError) <= k + 1
    decreases |names|
  {
    if k < |names| - 1 {
      BootedCountAtMost(names[..|names| - 1], bootError, k);
    }
  }

  /** When the first `m` boots succeed, the loop goes past them: it boots
      the `m + 1`-th service too, if there is one. */
  lemma {:induction false} BootedCountAtLeast(names: seq<string>, bootError: nat -> Option<string>, m: nat)
    requires m < |names|
    requires forall j :: 0 <= j < m ==> bootError(j).None?
    ensures BootedCount(names, bootError) >= m + 1
    decreases |names|
  {
    var n := |names| - 1;
    if m < n {
      BootedCountAtLeast(names[..n], bootError, m);
    } else if m > 0 {
      BootedCountAtLeast(names[..n], bootError, m - 1);
    }
  }

  /** A boot's outcome as the boot loop sees it: its rejection, if any. */
  function Rejection(r: Result<(), string>): (e: Option<string>)
    ensures e.Some? <==> r.Failure?
  {
    if r.Failure? then Some(r.error) else None
  }

  /** The kernel as written boots every service with no argument, so the
      socket service, always the last built-in, is booted without an HTTP
      server: whatever its files, its boot rejects, the boot loop stops
      there, no service of the caller's is booted, and the kernel's boot
      rejects. `bootError` is the boots' outcomes, the socket service's
      being its own boot's. */
  lemma BootWithoutServer(env: map<string, string>, cwd: string, services: seq<Descriptor>,
                          bootError: nat -> Option<string>, guardFiles: seq<SourceFile<SocketIO.GuardDecl>>,
                          handlerFiles: seq<SourceFile<SocketIO.HandlerDecl>>, attachError: string)
    requires bootError(|BuiltIns(env, cwd)| - 1) ==
      Rejection(SocketIO.BootResult(guardFiles, handlerFiles, None, attachError))
    ensures |BootLog(Names(BuiltIns(env, cwd) + services), bootError)| <= |BuiltIns(env, cwd)|
    ensures !(forall i :: 0 <= i < |BuiltIns(env, cwd) + services| ==> bootError(i).None?)
  {
    BuiltInEnds(env, cwd);
    var k := |BuiltIns(env, cwd)| - 1;
    NamesAppend(BuiltIns(env, cwd), services);
    BootedCountAtMost(Names(BuiltIns(env, cwd) + services), bootError, k);
  }

  /** With the HTTP server handed to the socket service, a boot in which the
      other built-ins succeed and the socket service's files all load gets
      past the built-ins: the caller's first service is booted next. */
  lemma BootWithServer(env: map<string, string>, cwd: string, services: seq<Descriptor>,
                       bootError: nat -> Option<string>, guardFiles: seq<SourceFile<SocketIO.GuardDecl>>,
                       handlerFiles: seq<SourceFile<SocketIO.HandlerDecl>>, port: nat, attachError: string)
    requires forall i :: 0 <= i < |BuiltIns(env, cwd)| - 1 ==> bootError(i).None?
    requires bootError(|BuiltIns(env, cwd)| - 1) ==
      Rejection(SocketIO.BootResult(guardFiles, handlerFiles, Some(port), attachError))
    requires LoadAll(guardFiles, "guard").Success?
    requires LoadAll(SocketIO.HandlerFiles(handlerFiles), "handler").Success?
    ensures services != [] ==>
      var boots := BootLog(Names(BuiltIns(env, cwd) + services), bootError);
      |boots| > |BuiltIns(env, cwd)| && boots[|BuiltIns(env, cwd)|] == BootService(services[0].name)
  {
    var ds := BuiltIns(env, cwd);
    if services != [] {
      var names := Names(ds + services);
      assert bootError(|ds| - 1).None?;
      BootedCountAtLeast(names, bootError, |ds|);
      assert names[|ds|] == services[0].name;
    }
  }
}
