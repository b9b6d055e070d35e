/**
 * Server and client together: the code of both, over any legal run of calls.
 */
module GdbusSession {
  import opened GdbusObjects
  import opened GdbusCore
  import opened GdbusRuns
  import opened GdbusMirror
  import opened GdbusHeld
  import opened GdbusPhases
  import opened GdbusServer
  import opened GdbusClient

  method Perform(server: ObjectServer, c: Call, ghost exact: bool)
    requires Full(server.Now(), exact) && Legal(server.Now(), c, exact)
    modifies server
    ensures server.Now() == Step(old(server.Now()), c) && Full(server.Now(), exact)
  {
    StepFull(server.Now(), c, exact);
    match c {
      case RegisterCall(p, n, usable, properties) => var _ := server.Register(p, n, usable, properties);
      case UnregisterCall(p, n) => var _ := server.Unregister(p, n);
      case FlushCall =>
        FlushFull(server.Now(), exact);
        server.Flush();
      case IdleCall(p) =>
        if p in server.table && server.table[p].queued {
          server.ProcessChanges(p);
        }
    }
  }

  method Serve(server: ObjectServer, calls: seq<Call>, ghost exact: bool)
    requires server.Now() == START && LegalRun(START, calls, exact)
    modifies server
    ensures server.Now() == Run(START, calls) && Full(server.Now(), exact)
  {
    StartFull(exact);
    for i := 0 to |calls|
      invariant Full(server.Now(), exact) && LegalRun(server.Now(), calls[i..], exact)
      invariant Run(server.Now(), calls[i..]) == Run(START, calls)
    {
      assert calls[i..][1..] == calls[i + 1..];
      Perform(server, calls[i], exact);
    }
  }

  lemma FlushedView(calls: seq<Call>)
    requires LegalRun(START, calls, false)
    ensures var s := Step(Run(START, calls), FlushCall);
            View(s.bus) == Kept(calls) && (LegalRun(START, calls, true) ==> View(s.bus) == Public(Held(calls)))
  {
    StartFull(false);
    RunFull(START, calls, false);
    FlushFull(Run(START, calls), false);
    RunNext(START, calls, FlushCall, false);
    RunNext(START, calls, FlushCall, true);
    KnownInEveryRun(calls + [FlushCall]);
    KeptByFlush(calls);
    if LegalRun(START, calls, true) {
      MirrorInEveryRun(calls + [FlushCall]);
    }
  }

  // A client that follows the bus from the start has a proxy, once the server has flushed, for exactly what
  // the calls have registered and not removed anywhere but at the manager's path, without the names whose
  // last registration found their own removal waiting.
  method Session(calls: seq<Call>) returns (server: ObjectServer, client: Client)
    requires LegalRun(START, calls, false)
    ensures server.Now() == Step(Run(START, calls), FlushCall) && client.Valid()
    ensures client.Known() == Kept(calls)
    ensures LegalRun(START, calls, true) ==> client.Known() == Public(Held(calls))
  {
    server := new ObjectServer();
    client := new Client();
    Serve(server, calls, false);
    FlushFull(server.Now(), false);
    server.Flush();
    FlushedView(calls);
    client.Follow(server.bus);
  }
}
