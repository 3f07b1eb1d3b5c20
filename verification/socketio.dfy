/** The Socket.IO service (src/services/socketio/SocketIO.js): the guard
    table filled at boot, the handlers loaded from the handlers folder, and
    what happens when a client connects and when it sends an event. The
    socket server itself is outside the model; connecting and sending are
    method calls, and what the service does in reply is a trace. The HTTP
    server handed to `boot` is represented by the port it is bound to. */
module SocketIO {
  import opened Wrappers
  import opened Discovery
  import opened JsStrings

  /** A guard class declares nothing beyond its name. */
  datatype GuardDecl = GuardDecl

  /** A handler class declares the names of the guards its event passes. */
  datatype HandlerDecl = HandlerDecl(guards: seq<string>)

  type Guard = Loaded<GuardDecl>
  type Handler = Loaded<HandlerDecl>

  /** The connection handler's file, which the handler scan ignores. */
  const ConnectionFile := "connection.js"
  /** The template a missing connection handler is installed from. */
  const ConnectionTemplate := "default/src/handlers/connection"

  /** What the service does, in order. */
  datatype SocketEffect =
    | LogInfo(message: string)
    | MakeDir(path: string)
    | InstallFile(template: string, location: string)
    | WarnMissingGuard
    | InvokeGuard(guard: Guard)
    | HandleConnection
    | BindListener(event: string, guards: seq<Option<Guard>>)
    | CallHandler(handler: Handler)
    | Listen(port: nat)

  /** The handler scan: every file but the top-level connection handler,
      in scan order. */
  function HandlerFiles(files: seq<SourceFile<HandlerDecl>>): (r: seq<SourceFile<HandlerDecl>>)
    ensures |r| <= |files|
    ensures forall f :: f in r <==> f in files && f.relPath != ConnectionFile
    decreases |files|
  {
    if files == [] then []
    else
      var n := |files| - 1;
      HandlerFiles(files[..n]) + (if files[n].relPath != ConnectionFile then [files[n]] else [])
  }

  /** Creating a missing folder and installing its sample file. */
  function EnsureFolder(folder: string, exists_: bool, kind: string, template: string, sample: string): (effects: seq<SocketEffect>)
    ensures exists_ ==> effects == []
    ensures !exists_ ==> MakeDir(folder) in effects && InstallFile(template, folder + "/" + sample) in effects
  {
    if exists_ then []
    else [LogInfo("Creating " + kind + " folder at " + folder), MakeDir(folder), InstallFile(template, folder + "/" + sample)]
  }

  /** What invoking a list of resolved guards does: a missing guard is
      skipped with a warning, the others are invoked in order. */
  function GuardCalls(resolved: seq<Option<Guard>>): (effects: seq<SocketEffect>)
    ensures |effects| == |resolved|
    ensures forall i :: 0 <= i < |resolved| ==>
      effects[i] == (if resolved[i].Some? then InvokeGuard(resolved[i].value) else WarnMissingGuard)
  {
    seq(|resolved|, i requires 0 <= i < |resolved| =>
      if resolved[i].Some? then InvokeGuard(resolved[i].value) else WarnMissingGuard)
  }

  /** No guard that the table resolves is ever skipped, and no missing one is
      ever invoked. */
  lemma GuardCallsInvokeResolved(resolved: seq<Option<Guard>>, g: Guard)
    ensures InvokeGuard(g) in GuardCalls(resolved) <==> Some(g) in resolved
  {
    var effects := GuardCalls(resolved);
    if Some(g) in resolved {
      var i :| 0 <= i < |resolved| && resolved[i] == Some(g);
      assert effects[i] == InvokeGuard(g);
    }
    if InvokeGuard(g) in effects {
      var i :| 0 <= i < |effects| && effects[i] == InvokeGuard(g);
      assert resolved[i] == Some(g);
    }
  }

  /** The line logged once the socket server listens. */
  function RunningMessage(port: nat): string {
    "Socket.IO is running on ws://localhost:" + NatToString(port)
  }

  /** How `boot` settles: the first file that fails the subclass check
      among the guards, then among the handlers, gives the rejection; with
      every file loaded, the boot succeeds exactly when it has an HTTP server
      to listen on. */
  function BootResult(guardFiles: seq<SourceFile<GuardDecl>>, handlerFiles: seq<SourceFile<HandlerDecl>>,
                      httpServer: Option<nat>, attachError: string): (r: Result<(), string>)
    ensures r.Success? <==>
      (forall i :: 0 <= i < |guardFiles| ==> guardFiles[i].isSubtype) &&
      (forall f :: f in handlerFiles && f.relPath != ConnectionFile ==> f.isSubtype) &&
      httpServer.Some?
    ensures LoadAll(guardFiles, "guard").Failure? ==> r == Failure(LoadAll(guardFiles, "guard").error)
    ensures LoadAll(guardFiles, "guard").Success? && LoadAll(HandlerFiles(handlerFiles), "handler").Failure? ==>
      r == Failure(LoadAll(HandlerFiles(handlerFiles), "handler").error)
    ensures httpServer.None? ==> r.Failure?
  {
    var loadedGuards := LoadAll(guardFiles, "guard");
    var loadedHandlers := LoadAll(HandlerFiles(handlerFiles), "handler");
    if loadedGuards.Failure? then Failure(loadedGuards.error)
    else if loadedHandlers.Failure? then Failure(loadedHandlers.error)
    else if httpServer.None? then Failure(attachError)
    else Success(())
  }

  class SocketIOService {
    /** Guards by name. */
    var guards: map<string, Guard>
    /** The handlers loaded at boot, in scan order. */
    var handlers: seq<Handler>
    /** The guard names the connection handler declares. */
    var connectionGuards: seq<string>

    constructor()
      ensures guards == map[] && handlers == [] && connectionGuards == []
    {
      guards := map[];
      handlers := [];
      connectionGuards := [];
    }

    /** A guard name as the table resolves it: absent names give `None`. */
    function Resolve(names: seq<string>): (r: seq<Option<Guard>>)
      reads this
      ensures |r| == |names|
      ensures forall i :: 0 <= i < |names| ==> (r[i].Some? <==> names[i] in guards)
      ensures forall i :: 0 <= i < |names| && names[i] in guards ==> r[i] == Some(guards[names[i]])
    {
      seq(|names|, i requires 0 <= i < |names| reads this =>
        if names[i] in guards then Some(guards[names[i]]) else None)
    }

    /** Writes each guard into the table under its name, in order. */
    method RegisterGuards(items: seq<Guard>)
      modifies this
      ensures guards == Register(old(guards), Named(items))
      ensures handlers == old(handlers) && connectionGuards == old(connectionGuards)
    {
      ghost var entries := Named(items);
      var i := 0;
      while i < |items|
        invariant 0 <= i <= |items|
        invariant guards == Register(old(guards), entries[..i])
        invariant handlers == old(handlers) && connectionGuards == old(connectionGuards)
      {
        assert entries[..i + 1][..i] == entries[..i];
        assert entries[..i + 1][i] == (items[i].name, items[i]);
        guards := guards[items[i].name := items[i]];
        i := i + 1;
      }
      assert entries[..|items|] == entries;
    }

    /** `boot({httpServer})`: loads the guards and fills the guard table (a
        later guard with the same name replaces an earlier one), then loads
        the handlers from every file but the connection handler, and takes
        the guard list the connection handler declares, installing that
        handler from its template first when its file is missing; then the
        socket server listens on the HTTP server and logs its port. A file
        failing the subclass check stops the boot; a failing handler file
        does so after the guard table has been filled. With no HTTP server
        (`httpServer` is `None`) the listen step throws `attachError` after
        everything has been loaded. */
    method Boot(cwd: string, guardsFolderExists: bool, guardFiles: seq<SourceFile<GuardDecl>>,
                handlersFolderExists: bool, handlerFiles: seq<SourceFile<HandlerDecl>>,
                connectionHandlerExists: bool, connectionHandlerGuards: seq<string>,
                httpServer: Option<nat>, attachError: string)
      returns (effects: seq<SocketEffect>, r: Result<(), string>)
      modifies this
      ensures r == BootResult(guardFiles, handlerFiles, httpServer, attachError)
      ensures LoadAll(guardFiles, "guard").Failure? ==>
        guards == old(guards) && handlers == old(handlers) && connectionGuards == old(connectionGuards) &&
        effects == EnsureFolder(cwd + "/src/guards", guardsFolderExists, "guards", "default/src/guards/default", "default.js")
      ensures LoadAll(guardFiles, "guard").Success? ==>
        guards == Register(old(guards), Named(LoadAll(guardFiles, "guard").value))
      ensures LoadAll(guardFiles, "guard").Success? && LoadAll(HandlerFiles(handlerFiles), "handler").Failure? ==>
        handlers == old(handlers) && connectionGuards == old(connectionGuards) &&
        effects ==
          EnsureFolder(cwd + "/src/guards", guardsFolderExists, "guards", "default/src/guards/default", "default.js") +
          EnsureFolder(cwd + "/src/handlers", handlersFolderExists, "handlers", "default/src/handlers/message", "message.js")
      ensures LoadAll(guardFiles, "guard").Success? && LoadAll(HandlerFiles(handlerFiles), "handler").Success? ==>
        handlers == LoadAll(HandlerFiles(handlerFiles), "handler").value &&
        connectionGuards == connectionHandlerGuards &&
        effects ==
          EnsureFolder(cwd + "/src/guards", guardsFolderExists, "guards", "default/src/guards/default", "default.js") +
          EnsureFolder(cwd + "/src/handlers", handlersFolderExists, "handlers", "default/src/handlers/message", "message.js") +
          (if connectionHandlerExists then []
           else [InstallFile(ConnectionTemplate, cwd + "/src/handlers" + "/" + ConnectionFile)]) +
          (if httpServer.Some? then [Listen(httpServer.value), LogInfo(RunningMessage(httpServer.value))] else [])
    {
      var guardsFolder := cwd + "/src/guards";
      effects := EnsureFolder(guardsFolder, guardsFolderExists, "guards", "default/src/guards/default", "default.js");
      var loadedGuards := LoadAll(guardFiles, "guard");
      if loadedGuards.Failure? {
        return effects, Failure(loadedGuards.error);
      }
      RegisterGuards(loadedGuards.value);
      var handlersFolder := cwd + "/src/handlers";
      effects := effects + EnsureFolder(handlersFolder, handlersFolderExists, "handlers", "default/src/handlers/message", "message.js");
      var loadedHandlers := LoadAll(HandlerFiles(handlerFiles), "handler");
      if loadedHandlers.Failure? {
        return effects, Failure(loadedHandlers.error);
      }
      if !connectionHandlerExists {
        effects := effects + [InstallFile(ConnectionTemplate, handlersFolder + "/" + ConnectionFile)];
      }
      handlers := loadedHandlers.value;
      connectionGuards := connectionHandlerGuards;
      if httpServer.None? {
        return effects, Failure(attachError);
      }
      effects := effects + [Listen(httpServer.value), LogInfo(RunningMessage(httpServer.value))];
      r := Success(());
    }

    /** A client connects: the connection guards are resolved and invoked
        in declared order without waiting for them (a missing one is skipped
        with a warning), then the connection handler runs, then one listener
        is bound per handler, carrying that handler's guards as resolved at
        this moment. */
    method OnConnection() returns (trace: seq<SocketEffect>)
      ensures trace == GuardCalls(Resolve(connectionGuards)) + [HandleConnection] +
        seq(|handlers|, i requires 0 <= i < |handlers| reads this =>
          BindListener(handlers[i].name, Resolve(handlers[i].decl.guards)))
    {
      var resolved := Resolve(connectionGuards);
      trace := [];
      for i := 0 to |resolved|
        invariant trace == GuardCalls(resolved[..i])
      {
        if resolved[i].None? {
          trace := trace + [WarnMissingGuard];
        } else {
          trace := trace + [InvokeGuard(resolved[i].value)];
        }
      }
      assert resolved[..|resolved|] == resolved;
      trace := trace + [HandleConnection];
      ghost var start := trace;
      for j := 0 to |handlers|
        invariant |trace| == |start| + j && trace[..|start|] == start
        invariant forall k :: 0 <= k < j ==>
          trace[|start| + k] == BindListener(handlers[k].name, Resolve(handlers[k].decl.guards))
      {
        trace := trace + [BindListener(handlers[j].name, Resolve(handlers[j].decl.guards))];
      }
    }
  }

  /** The number of guards an event listener waits for before the one that
      rejects, or all of them. */
  function SettledBeforeReject(resolved: seq<Option<Guard>>, rejects: nat -> bool): (k: nat)
    ensures k <= |resolved|
    ensures forall i :: 0 <= i < k ==> resolved[i].None? || !rejects(i)
    ensures k < |resolved| ==> resolved[k].Some? && rejects(k)
    decreases |resolved|
  {
    if resolved == [] then 0
    else
      var k := SettledBeforeReject(resolved[..|resolved| - 1], rejects);
      if k < |resolved| - 1 then k
      else if resolved[|resolved| - 1].Some? && rejects(|resolved| - 1) then |resolved| - 1
      else |resolved|
  }

  /** A client sends the handler's event: the guards resolved when the
      listener was bound are awaited one after another (a missing one is
      skipped with a warning); a guard that rejects ends the listener with
      its rejection and the handler is never called; otherwise the handler
      runs after all of them. `rejects(i)` says whether the `i`-th guard's
      handling rejects. */
  method OnEvent(resolved: seq<Option<Guard>>, handler: Handler, rejects: nat -> bool)
    returns (trace: seq<SocketEffect>, handled: bool)
    ensures handled <==> forall i :: 0 <= i < |resolved| && resolved[i].Some? ==> !rejects(i)
    ensures handled ==> trace == GuardCalls(resolved) + [CallHandler(handler)]
    ensures !handled ==>
      var k := SettledBeforeReject(resolved, rejects);
      trace == GuardCalls(resolved[..k + 1]) && CallHandler(handler) !in trace
  {
    trace := [];
    var i := 0;
    while i < |resolved|
      invariant 0 <= i <= |resolved|
      invariant trace == GuardCalls(resolved[..i])
      invariant forall j :: 0 <= j < i ==> resolved[j].None? || !rejects(j)
    {
      if resolved[i].None? {
        trace := trace + [WarnMissingGuard];
      } else {
        trace := trace + [InvokeGuard(resolved[i].value)];
        if rejects(i) {
          assert resolved[..i + 1][..i] == resolved[..i];
          assert SettledBeforeReject(resolved, rejects) == i;
          return trace, false;
        }
      }
      i := i + 1;
    }
    assert resolved[..i] == resolved;
    trace := trace + [CallHandler(handler)];
    handled := true;
  }
}
