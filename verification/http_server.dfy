/** The HTTP server wrapper (src/kernel/HTTPServer.js): a port checked at
    construction and a start that refuses to run twice. The runtime sets the
    server's `listening` flag inside the `listen` call when the port binds;
    the model makes that bind an explicit step, `Bound`, which a failed bind
    (a port already taken, say) never takes, leaving the flag false. */
module HttpServer {
  import opened Wrappers
  import opened JsStrings

  /** The `port` option: a number, or anything else. */
  datatype PortArg = PortNumber(n: int) | PortOther

  const PortError := "port must be a positive number"
  const AlreadyStarted := "Server is already started. Review your code"

  /** The constructor's check: only a number of at least 1 is accepted. */
  function CheckPort(port: PortArg): (r: Result<nat, string>)
    ensures r.Success? <==> port.PortNumber? && port.n >= 1
    ensures r.Success? ==> r.value == port.n && r.value >= 1
    ensures r.Failure? ==> r.error == PortError
  {
    if port.PortOther? || port.n < 1 then Failure(PortError) else Success(port.n)
  }

  /** The line `start` writes to the console. */
  function ListeningMessage(port: nat): (m: string)
    ensures StartsWith(m, "HTTP Server listening on port ")
  {
    "HTTP Server listening on port " + NatToString(port)
  }

  class HTTPServer {
    const port: nat
    /** The runtime's `listening` flag. */
    var listening: bool
    /** The ports `listen` has been asked for, in order. */
    var listenCalls: seq<nat>
    /** What `start` wrote to the console. */
    var console: seq<string>

    constructor(p: nat)
      requires p >= 1
      ensures port == p && !listening && listenCalls == [] && console == []
    {
      port := p;
      listening := false;
      listenCalls := [];
      console := [];
    }

    /** `isStarted` */
    predicate IsStarted()
      reads this
    {
      listening
    }

    /** `start`: refuses when the server already listens; otherwise logs the
        port and asks the runtime to listen on it. */
    method Start() returns (r: Result<(), string>)
      modifies this
      ensures r.Failure? <==> old(IsStarted())
      ensures r.Failure? ==> r.error == AlreadyStarted && listenCalls == old(listenCalls) && console == old(console)
      ensures r.Success? ==>
        listenCalls == old(listenCalls) + [port] && console == old(console) + [ListeningMessage(port)]
      ensures listening == old(listening)
    {
      if listening {
        return Failure(AlreadyStarted);
      }
      console := console + [ListeningMessage(port)];
      listenCalls := listenCalls + [port];
      r := Success(());
    }

    /** A successful bind of the port by a `listen` call. */
    method Bound()
      requires listenCalls != []
      modifies this
      ensures listening && listenCalls == old(listenCalls) && console == old(console)
    {
      listening := true;
    }
  }

  /** `new HTTPServer({port})`: the check, then a server that is not
      listening yet. */
  method Create(portArg: PortArg) returns (r: Result<HTTPServer, string>)
    ensures r.Failure? <==> CheckPort(portArg).Failure?
    ensures r.Failure? ==> r.error == PortError
    ensures r.Success? ==>
      fresh(r.value) && r.value.port == CheckPort(portArg).value && !r.value.listening && r.value.listenCalls == []
  {
    var checked := CheckPort(portArg);
    if checked.Failure? {
      return Failure(checked.error);
    }
    var server := new HTTPServer(checked.value);
    r := Success(server);
  }

  /** When the first start's bind succeeds, a second start is refused and
      asks for nothing; when that bind failed, the flag is still false and
      the second start goes through as well. */
  method StartTwice(server: HTTPServer, boundBetween: bool) returns (first: Result<(), string>, second: Result<(), string>)
    requires !server.listening
    modifies server
    ensures first.Success?
    ensures second.Failure? <==> boundBetween
    ensures boundBetween ==> |server.listenCalls| == |old(server.listenCalls)| + 1
    ensures !boundBetween ==> |server.listenCalls| == |old(server.listenCalls)| + 2
  {
    first := server.Start();
    if boundBetween {
      server.Bound();
    }
    second := server.Start();
  }
}
