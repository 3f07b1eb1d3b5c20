/** The event service (src/services/events/index.js): the event table
    filled at boot and the by-name dispatch of `emit` and `emitAsync`. */
module Events {
  import opened Wrappers
  import opened Discovery
  import opened JsStrings

  /** An event class declares nothing beyond its name. */
  datatype EventDecl = EventDecl

  type Event = Loaded<EventDecl>

  /** The call `emit` makes: the event's `handle` with the payload. */
  datatype HandleCall<P> = HandleCall(event: Event, payload: P)

  /** What `emitAsync` starts: the handle call racing a timer of `timeout`
      milliseconds. */
  datatype RacedCall<P> = RacedCall(call: HandleCall<P>, timeout: nat)

  const DefaultTimeout := 30000

  /** What the boot does besides filling the table. */
  datatype BootEffect = LogInfo(message: string) | MakeDir(path: string)

  class EventService {
    /** Events by name. */
    var events: map<string, Event>

    constructor()
      ensures events == map[]
    {
      events := map[];
    }

    /** `boot`: creates the events folder when it is missing, loads every
        event file (the first one that is not an event class throws), logs
        how many were loaded, and writes each into the table under its
        name, a later one replacing an earlier one with the same name. */
    method Boot(cwd: string, folderExists: bool, files: seq<SourceFile<EventDecl>>)
      returns (effects: seq<BootEffect>, r: Result<(), string>)
      modifies this
      ensures MakeDir(cwd + "/src/events") in effects <==> !folderExists
      ensures effects ==
        (if folderExists then []
         else [LogInfo("Creating schedules folder at " + (cwd + "/src/events")), MakeDir(cwd + "/src/events")]) +
        (if r.Success? then [LogInfo("Loaded " + NatToString(|files|) + " events")] else [])
      ensures r.Success? <==> LoadAll(files, "handler").Success?
      ensures r.Failure? ==> r.error == LoadAll(files, "handler").error && events == old(events)
      ensures r.Success? ==>
        events == Register(old(events), Named(LoadAll(files, "handler").value)) &&
        |effects| >= 1 && effects[|effects| - 1] == LogInfo("Loaded " + NatToString(|files|) + " events")
    {
      var folder := cwd + "/src/events";
      effects := if folderExists then [] else [LogInfo("Creating schedules folder at " + folder), MakeDir(folder)];
      var loaded := LoadAll(files, "handler");
      if loaded.Failure? {
        return effects, Failure(loaded.error);
      }
      var items := loaded.value;
      effects := effects + [LogInfo("Loaded " + NatToString(|items|) + " events")];
      ghost var entries := Named(items);
      for i := 0 to |items|
        invariant events == Register(old(events), entries[..i])
      {
        assert entries[..i + 1][..i] == entries[..i];
        assert entries[..i + 1][i] == (items[i].name, items[i]);
        events := events[items[i].name := items[i]];
      }
      assert entries[..|items|] == entries;
      r := Success(());
    }

    /** `emit`: an unknown name throws `Event <name> not found` and calls
        nothing; a known one calls that event's `handle` once with the
        payload, and its result is what `emit` returns. */
    function Emit<P>(eventName: string, payload: P): (r: Result<HandleCall<P>, string>)
      reads this
      ensures r.Failure? <==> eventName !in events
      ensures r.Failure? ==> r.error == "Event " + eventName + " not found"
      ensures r.Success? ==> r.value.event == events[eventName] && r.value.payload == payload
    {
      if eventName !in events then Failure("Event " + eventName + " not found")
      else Success(HandleCall(events[eventName], payload))
    }

    /** `emitAsync`: the same name check as `emit`, with the same error,
        made before any timer exists, then the very call `emit` makes raced
        against a timer (30000 ms by default). */
    function EmitAsync<P>(eventName: string, payload: P, timeout: Option<nat>): (r: Result<RacedCall<P>, string>)
      reads this
      ensures r.Failure? <==> Emit(eventName, payload).Failure?
      ensures r.Failure? ==> r.error == Emit(eventName, payload).error
      ensures r.Success? ==> r.value.call == Emit(eventName, payload).value
      ensures r.Success? ==> r.value.timeout == (if timeout.Some? then timeout.value else DefaultTimeout)
    {
      if eventName !in events then Failure("Event " + eventName + " not found")
      else Success(RacedCall(HandleCall(events[eventName], payload), if timeout.Some? then timeout.value else DefaultTimeout))
    }
  }

  /** After a boot from an empty table, emitting a name reaches the last
      loaded event of that name, and a name no event carries is refused. */
  lemma {:induction false} EmitAfterBoot<P>(svc: EventService, items: seq<Event>, eventName: string, payload: P)
    requires svc.events == Register(map[], Named(items))
    ensures svc.Emit(eventName, payload).Success? <==> exists i :: 0 <= i < |items| && items[i].name == eventName
    ensures forall i :: (0 <= i < |items| && items[i].name == eventName &&
      (forall j :: i < j < |items| ==> items[j].name != eventName)) ==>
        svc.Emit(eventName, payload).value.event == items[i]
  {
    var entries := Named(items);
    RegisterKeys(map[], entries);
    if eventName in svc.events {
      var i :| 0 <= i < |entries| && entries[i].0 == eventName;
      assert items[i].name == eventName;
    } else {
      forall i | 0 <= i < |items| ensures items[i].name != eventName {
        assert entries[i].0 == items[i].name;
      }
    }
    forall i | 0 <= i < |items| && items[i].name == eventName &&
      (forall j :: i < j < |items| ==> items[j].name != eventName)
      ensures svc.Emit(eventName, payload).value.event == items[i]
    {
      forall j | i < j < |entries| ensures entries[j].0 != entries[i].0 {
        assert entries[j].0 == items[j].name;
      }
      RegisterLastWins(map[], entries, i);
    }
  }
}
