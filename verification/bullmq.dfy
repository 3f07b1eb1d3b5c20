/** The queue service (src/services/bullmq/index.js): the activated queue
    names read from `QUEUES`, the queue tables filled at boot, and which
    workers get bound to a queue. Queue, queue-events and worker objects of
    the queue library are represented by the names they are created for. */
module BullMQ {
  import opened Wrappers
  import opened JsStrings
  import opened Discovery

  /** A worker class declares the queue it serves ("" when it declares none). */
  datatype WorkerDecl = WorkerDecl(queueName: string)

  type Worker = Loaded<WorkerDecl>

  /** What the boot does, in order. */
  datatype QueueEffect =
    | CreateQueue(name: string)
    | CreateQueueEvents(name: string)
    | LogInfo(message: string)
    | LogWarn(message: string)
    | MakeDir(path: string)
    | BindWorker(worker: string, queue: string)

  /** The error the boot rejects with when it logs through the container's
      `loggfer` property, which the container does not have. */
  const LoggerError := "Cannot read properties of undefined (reading 'info')"

  /** A string with no whitespace at either end. */
  predicate IsTrimmed(s: string) {
    s == "" || (!IsJsWhitespace(s[0]) && !IsJsWhitespace(s[|s| - 1]))
  }

  /** The pieces, trimmed, with the empty ones dropped. */
  function TrimmedNonEmpty(parts: seq<string>): (r: seq<string>)
    ensures |r| <= |parts|
  {
    if parts == [] then []
    else
      var t := Trim(parts[0]);
      (if t != "" then [t] else []) + TrimmedNonEmpty(parts[1..])
  }

  /** Every kept piece is non-empty and trimmed. */
  lemma {:induction false} TrimmedNonEmptyClean(parts: seq<string>)
    ensures forall t :: t in TrimmedNonEmpty(parts) ==> t != "" && IsTrimmed(t)
  {
    if parts != [] {
      TrimSpec(parts[0]);
      TrimmedNonEmptyClean(parts[1..]);
    }
  }

  lemma {:induction false} TrimmedNonEmptyAppend(a: seq<string>, b: seq<string>)
    ensures TrimmedNonEmpty(a + b) == TrimmedNonEmpty(a) + TrimmedNonEmpty(b)
  {
    if a == [] {
      assert a + b == b;
    } else {
      assert (a + b)[0] == a[0];
      assert (a + b)[1..] == a[1..] + b;
      TrimmedNonEmptyAppend(a[1..], b);
    }
  }

  /** `#getActivatedQueues`: `QUEUES` (or "" when unset or empty) split at
      commas, each piece trimmed, the empty ones dropped. */
  function ActivatedQueues(queuesEnv: Option<string>): seq<string> {
    TrimmedNonEmpty(Split(QueuesSetting(queuesEnv), ','))
  }

  /** `process.env.QUEUES || ""` */
  function QueuesSetting(queuesEnv: Option<string>): string {
    if queuesEnv.None? then "" else queuesEnv.value
  }

  /** Every activated name is non-empty and has no surrounding whitespace,
      and an unset `QUEUES` activates nothing. */
  lemma ActivatedQueuesClean(queuesEnv: Option<string>)
    ensures forall q :: q in ActivatedQueues(queuesEnv) ==> q != "" && IsTrimmed(q)
    ensures queuesEnv.None? ==> ActivatedQueues(queuesEnv) == []
  {
    TrimmedNonEmptyClean(Split(QueuesSetting(queuesEnv), ','));
    if queuesEnv.None? {
      assert Split("", ',') == [""];
      TrimStartUnchanged("");
      TrimEndUnchanged("");
    }
  }

  /** Names listed side by side with a comma come out in the same order. */
  lemma ActivatedQueuesConcat(a: string, b: string)
    ensures ActivatedQueues(Some(a + "," + b)) == ActivatedQueues(Some(a)) + ActivatedQueues(Some(b))
  {
    SplitAround(a, ',', b);
    TrimmedNonEmptyAppend(Split(a, ','), Split(b, ','));
  }

  /** A trimmed string is its own trim. */
  lemma TrimOfTrimmed(s: string)
    requires IsTrimmed(s)
    ensures Trim(s) == s
  {
    TrimStartUnchanged(s);
    TrimEndUnchanged(s);
  }

  /** A single clean name activates exactly that queue. */
  lemma ActivatedQueuesSingle(name: string)
    requires name != "" && IsTrimmed(name) && ',' !in name
    ensures ActivatedQueues(Some(name)) == [name]
  {
    SplitWithout(name, ',');
    TrimOfTrimmed(name);
  }

  /** The effects of creating the queues of `names` with a working logger. */
  function QueueSetup(names: seq<string>): (effects: seq<QueueEffect>)
    ensures |effects| == 3 * |names|
  {
    if names == [] then []
    else
      [CreateQueue(names[0]), CreateQueueEvents(names[0]), LogInfo("Queue " + names[0] + " initialized")] +
      QueueSetup(names[1..])
  }

  /** What the worker loop does with one worker, given the queue table. */
  function WorkerStep(w: Worker, queues: set<string>): QueueEffect {
    if w.decl.queueName == "" then
      LogWarn("Worker " + w.name + " has no queueName defined, skipping...")
    else if w.decl.queueName !in queues then
      LogWarn("Queue " + w.decl.queueName + " not found for worker " + w.name + ", skipping...")
    else BindWorker(w.name, w.decl.queueName)
  }

  /** The effects of one worker: a bound worker is followed by its log
      line. */
  function StepEffects(w: Worker, queues: set<string>): seq<QueueEffect> {
    if WorkerStep(w, queues).BindWorker? then
      [WorkerStep(w, queues), LogInfo("Worker " + w.name + " for queue " + w.decl.queueName + " initialized")]
    else [WorkerStep(w, queues)]
  }

  /** The effects of the worker loop, worker by worker. */
  function WorkerEffects(workers: seq<Worker>, queues: set<string>): seq<QueueEffect>
    decreases |workers|
  {
    if workers == [] then []
    else
      var n := |workers| - 1;
      WorkerEffects(workers[..n], queues) + StepEffects(workers[n], queues)
  }

  /** Some worker of the list has this name and this queue name. */
  predicate HasWorker(workers: seq<Worker>, name: string, queue: string) {
    exists i :: 0 <= i < |workers| && workers[i].name == name && workers[i].decl.queueName == queue
  }

  /** A list has such a worker when its first part or its last worker does. */
  lemma HasWorkerSnoc(workers: seq<Worker>, name: string, queue: string)
    requires workers != []
    ensures HasWorker(workers, name, queue) <==>
      HasWorker(workers[..|workers| - 1], name, queue) ||
      (workers[|workers| - 1].name == name && workers[|workers| - 1].decl.queueName == queue)
  {
    var n := |workers| - 1;
    if HasWorker(workers[..n], name, queue) {
      var i :| 0 <= i < n && workers[..n][i].name == name && workers[..n][i].decl.queueName == queue;
      assert workers[i] == workers[..n][i];
    }
    if HasWorker(workers, name, queue) {
      var i :| 0 <= i < |workers| && workers[i].name == name && workers[i].decl.queueName == queue;
      if i < n {
        assert workers[..n][i] == workers[i];
      }
    }
  }

  /** A worker is bound exactly when it names a queue and that queue is in
      the table; skipped workers only cause a warning. */
  lemma {:induction false} WorkerBoundIff(workers: seq<Worker>, queues: set<string>, name: string, queue: string)
    ensures BindWorker(name, queue) in WorkerEffects(workers, queues) <==>
      queue != "" && queue in queues &&
      exists i :: 0 <= i < |workers| && workers[i].name == name && workers[i].decl.queueName == queue
    decreases |workers|
  {
    if workers != [] {
      var n := |workers| - 1;
      WorkerBoundIff(workers[..n], queues, name, queue);
      HasWorkerSnoc(workers, name, queue);
      assert BindWorker(name, queue) in StepEffects(workers[n], queues) <==>
        workers[n].name == name && workers[n].decl.queueName == queue && queue != "" && queue in queues;
    }
  }

  /** No worker is bound through a queue outside the table. */
  lemma {:induction false} NoBindWithoutQueues(workers: seq<Worker>, name: string, queue: string)
    ensures BindWorker(name, queue) !in WorkerEffects(workers, {})
  {
    WorkerBoundIff(workers, {}, name, queue);
  }

  /** Creating the workers folder when it is missing. */
  function WorkersFolder(cwd: string, folderExists: bool): (effects: seq<QueueEffect>)
    ensures MakeDir(cwd + "/src/workers") in effects <==> !folderExists
  {
    if folderExists then [] else [LogInfo("Creating workers folder at " + cwd + "/src/workers"), MakeDir(cwd + "/src/workers")]
  }

  class BullMQService {
    /** Names of the queues created, and of their queue-events objects. */
    var queues: set<string>
    var queuesEvents: set<string>

    constructor()
      ensures queues == {} && queuesEvents == {}
    {
      queues := {};
      queuesEvents := {};
    }

    /** The queue loop of `boot`: creates the queue and the events object of
        each name in order, logging through `loggfer` after each; without
        that property the loop stops, rejecting, after the first name. */
    method CreateQueues(names: seq<string>, containerHasLoggfer: bool) returns (effects: seq<QueueEffect>, ok: bool)
      modifies this
      ensures ok <==> containerHasLoggfer || names == []
      ensures ok ==>
        effects == QueueSetup(names) &&
        queues == old(queues) + set n | n in names && queuesEvents == old(queuesEvents) + set n | n in names
      ensures !ok ==>
        effects == [CreateQueue(names[0]), CreateQueueEvents(names[0])] &&
        queues == old(queues) + {names[0]} && queuesEvents == old(queuesEvents) + {names[0]}
    {
      effects := [];
      for i := 0 to |names|
        invariant effects == QueueSetup(names[..i])
        invariant queues == old(queues) + set n | n in names[..i]
        invariant queuesEvents == old(queuesEvents) + set n | n in names[..i]
        invariant i > 0 ==> containerHasLoggfer
      {
        QueueSetupSnoc(names[..i], names[i]);
        assert names[..i + 1] == names[..i] + [names[i]];
        queues := queues + {names[i]};
        queuesEvents := queuesEvents + {names[i]};
        effects := effects + [CreateQueue(names[i]), CreateQueueEvents(names[i])];
        if !containerHasLoggfer {
          assert names[..1] == [names[0]];
          return effects, false;
        }
        effects := effects + [LogInfo("Queue " + names[i] + " initialized")];
      }
      assert names[..|names|] == names;
      ok := true;
    }

    /** The worker loop of `boot`: each worker is skipped with a warning or
        bound to its queue, in order, against the current queue table. */
    method BindWorkers(workers: seq<Worker>) returns (effects: seq<QueueEffect>)
      ensures effects == WorkerEffects(workers, queues)
    {
      effects := [];
      for i := 0 to |workers|
        invariant effects == WorkerEffects(workers[..i], queues)
      {
        assert workers[..i + 1][..i] == workers[..i];
        var w := workers[i];
        if w.decl.queueName == "" {
          effects := effects + [LogWarn("Worker " + w.name + " has no queueName defined, skipping...")];
        } else if w.decl.queueName !in queues {
          effects := effects + [LogWarn("Queue " + w.decl.queueName + " not found for worker " + w.name + ", skipping...")];
        } else {
          effects := effects + [BindWorker(w.name, w.decl.queueName),
                                LogInfo("Worker " + w.name + " for queue " + w.decl.queueName + " initialized")];
        }
      }
      assert workers[..|workers|] == workers;
    }

    /** `boot`: for each activated name creates its queue and its events
        object and logs through the container's `loggfer` property; then
        loads the workers (the first file that is not a worker class throws)
        and binds each one that names a queue in the table. The container
        has no `loggfer` (`containerHasLoggfer` is false for it), so with a
        non-empty `QUEUES` the boot rejects right after creating the first
        queue, and no worker is ever bound. */
    method Boot(queuesEnv: Option<string>, containerHasLoggfer: bool, cwd: string, folderExists: bool,
                workerFiles: seq<SourceFile<WorkerDecl>>)
      returns (effects: seq<QueueEffect>, r: Result<(), string>)
      modifies this
      ensures var names := ActivatedQueues(queuesEnv);
        !containerHasLoggfer && names != [] ==>
          r == Failure(LoggerError) &&
          queues == old(queues) + {names[0]} && queuesEvents == old(queuesEvents) + {names[0]} &&
          effects == [CreateQueue(names[0]), CreateQueueEvents(names[0])]
      ensures var names := ActivatedQueues(queuesEnv);
        containerHasLoggfer || names == [] ==>
          queues == old(queues) + set n | n in names && queuesEvents == old(queuesEvents) + set n | n in names &&
          (r.Success? <==> LoadAll(workerFiles, "handler").Success?) &&
          (r.Failure? ==> r.error == LoadAll(workerFiles, "handler").error) &&
          effects == QueueSetup(names) + WorkersFolder(cwd, folderExists) +
                     (if r.Success? then WorkerEffects(LoadAll(workerFiles, "handler").value, queues) else [])
    {
      var names := ActivatedQueues(queuesEnv);
      var ok;
      effects, ok := CreateQueues(names, containerHasLoggfer);
      if !ok {
        return effects, Failure(LoggerError);
      }
      effects := effects + WorkersFolder(cwd, folderExists);
      var loaded := LoadAll(workerFiles, "handler");
      if loaded.Failure? {
        return effects, Failure(loaded.error);
      }
      var bound := BindWorkers(loaded.value);
      effects := effects + bound;
      r := Success(());
    }
  }

  lemma {:induction false} QueueSetupSnoc(names: seq<string>, n: string)
    ensures QueueSetup(names + [n]) == QueueSetup(names) + [CreateQueue(n), CreateQueueEvents(n), LogInfo("Queue " + n + " initialized")]
  {
    if names != [] {
      assert (names + [n])[1..] == names[1..] + [n];
      QueueSetupSnoc(names[1..], n);
    }
  }
}
