/** The logger service (src/services/logger/index.js): the line format, the
    timestamp, and `store`, which appends a line to the day's log file and
    retries a failed append after creating what is missing, up to a bound
    kept in a counter that survives between calls. The clock is an ISO-8601
    string passed in; whether an append fails is an oracle. */
module Logger {
  import opened Wrappers
  import opened JsStrings

  const StoreError := "Failed to store log message"

  /** The counter value above which `store` refuses at once. */
  const MaxTries := 10

  /** `getDateTimestamp`: the ISO string with its first `T` turned into a
      space and its first `Z` removed. */
  function DateTimestamp(iso: string): string {
    ReplaceFirst(ReplaceFirst(iso, "T", " "), "Z", "")
  }

  /** On an ISO timestamp (a date, `T`, a time, `Z`) this gives the date, a
      space and the time. */
  lemma DateTimestampOfIso(date: string, time: string)
    requires 'T' !in date && 'Z' !in date && 'Z' !in time
    ensures DateTimestamp(date + "T" + time + "Z") == date + " " + time
  {
    assert date + "T" + time + "Z" == date + ['T'] + (time + "Z");
    ReplaceFirstChar(date, 'T', " ", time + "Z");
    assert date + " " + (time + "Z") == (date + " " + time) + ['Z'] + "";
    ReplaceFirstChar(date + " " + time, 'Z', "", "");
  }

  /** The uncoloured line `buildMessage` produces. */
  function BuildMessage(timestamp: string, kind: string, message: string): (line: string)
    ensures |line| == |timestamp| + |kind| + |message| + 4
    ensures line[..|timestamp|] == timestamp
    ensures line[|timestamp|..|timestamp| + 2] == " ["
    ensures line[|timestamp| + 2..|timestamp| + 2 + |kind|] == ToUpperAscii(kind)
    ensures line[|timestamp| + 2 + |kind|..|timestamp| + 4 + |kind|] == "] "
    ensures line[|line| - |message|..] == message
  {
    timestamp + " [" + ToUpperAscii(kind) + "] " + message
  }

  /** The level in brackets carries no lower-case ASCII letter. */
  lemma LevelUpperCased(timestamp: string, kind: string, message: string)
    ensures var level := BuildMessage(timestamp, kind, message)[|timestamp| + 2..|timestamp| + 2 + |kind|];
      forall i :: 0 <= i < |level| ==> !('a' <= level[i] <= 'z')
  {
  }

  /** The day's log file: the date part of the ISO string, `.log`. */
  function LogFile(logDirectory: string, iso: string): string {
    logDirectory + "/" + Split(iso, 'T')[0] + ".log"
  }

  /** On an ISO timestamp (a date, `T`, the rest) the log file is the
      date's `.log` file in the log directory: one file per day. */
  lemma LogFileOfIso(logDirectory: string, date: string, rest: string)
    requires 'T' !in date
    ensures LogFile(logDirectory, date + "T" + rest) == logDirectory + "/" + date + ".log"
  {
    assert date + "T" + rest == date + ['T'] + rest;
    SplitAround(date, 'T', rest);
    SplitWithout(date, 'T');
  }

  /** The index of the first append that succeeds among the `budget`
      attempts a call may make, if any. */
  function FirstSuccess(budget: nat, appendFails: nat -> bool): (r: Option<nat>)
    ensures r.None? <==> forall k :: 0 <= k < budget ==> appendFails(k)
    ensures r.Some? ==> r.value < budget && !appendFails(r.value) && forall k :: 0 <= k < r.value ==> appendFails(k)
    decreases budget
  {
    if budget == 0 then None
    else
      var r := FirstSuccess(budget - 1, appendFails);
      if r.Some? then r
      else if !appendFails(budget - 1) then Some(budget - 1)
      else None
  }

  /** The five levels. */
  datatype Level = Log | Info | Warn | Error | Debug

  function LevelName(level: Level): string {
    match level
    case Log => "log"
    case Info => "info"
    case Warn => "warn"
    case Error => "error"
    case Debug => "debug"
  }

  class Logger {
    const logDirectory: string
    const debugEnabled: bool
    /** `#storeTries` */
    var storeTries: nat
    /** The directories that exist. */
    var dirs: set<string>
    /** The files that exist, each with the lines appended to it. */
    var files: map<string, seq<string>>
    /** What was printed to the console. */
    var console: seq<string>

    constructor(logDirectory: string, debugEnabled: bool, dirs: set<string>, files: map<string, seq<string>>)
      ensures this.logDirectory == logDirectory && this.debugEnabled == debugEnabled
      ensures storeTries == 0 && this.dirs == dirs && this.files == files && console == []
    {
      this.logDirectory := logDirectory;
      this.debugEnabled := debugEnabled;
      storeTries := 0;
      this.dirs := dirs;
      this.files := files;
      console := [];
    }

    /** `boot`: creates the log directory when it is missing. */
    method Boot()
      modifies this
      ensures dirs == old(dirs) + {logDirectory}
      ensures storeTries == old(storeTries) && files == old(files) && console == old(console)
    {
      if logDirectory !in dirs {
        dirs := dirs + {logDirectory};
      }
    }

    /** `store(message)`: refuses at once when the counter is above 10;
        otherwise counts an attempt and appends the line to the day's file.
        A success resets the counter; a failure creates the directory and an
        empty file when missing and starts over. So a call makes at most
        `11 - storeTries` attempts, and one that runs out leaves the counter
        at 11, where every later call refuses at once. `appendFails(k)` says
        whether the `k`-th attempt of this call fails. */
    method Store(message: string, iso: string, appendFails: nat -> bool) returns (r: Result<(), string>, attempts: nat)
      modifies this
      ensures old(storeTries) > MaxTries ==>
        r == Failure(StoreError) && attempts == 0 && storeTries == old(storeTries) &&
        dirs == old(dirs) && files == old(files)
      ensures old(storeTries) <= MaxTries && FirstSuccess(MaxTries + 1 - old(storeTries), appendFails).Some? ==>
        r == Success(()) && attempts == FirstSuccess(MaxTries + 1 - old(storeTries), appendFails).value + 1 &&
        storeTries == 0 && LogFile(logDirectory, iso) in files &&
        files[LogFile(logDirectory, iso)] ==
          (if LogFile(logDirectory, iso) in old(files) then old(files)[LogFile(logDirectory, iso)] else []) + [message]
      ensures old(storeTries) <= MaxTries && FirstSuccess(MaxTries + 1 - old(storeTries), appendFails).None? ==>
        r == Failure(StoreError) && attempts == MaxTries + 1 - old(storeTries) && storeTries == MaxTries + 1 &&
        LogFile(logDirectory, iso) in files &&
        files[LogFile(logDirectory, iso)] ==
          (if LogFile(logDirectory, iso) in old(files) then old(files)[LogFile(logDirectory, iso)] else [])
      ensures attempts > 1 || (attempts == 1 && r.Failure?) ==>
        logDirectory in dirs && LogFile(logDirectory, iso) in files
      ensures forall p :: p in old(files) && p != LogFile(logDirectory, iso) ==> p in files && files[p] == old(files)[p]
      ensures forall p :: p in files && p != LogFile(logDirectory, iso) ==> p in old(files)
      ensures old(dirs) <= dirs <= old(dirs) + {logDirectory}
      ensures console == old(console)
    {
      if storeTries > MaxTries {
        return Failure(StoreError), 0;
      }
      var path := LogFile(logDirectory, iso);
      r, attempts := Retry(path, if path in files then files[path] else [], message, appendFails);
    }

    /** The attempts of `store` once the counter is at most 10: an attempt,
        and after a failed one the recursive call, which refuses once the
        counter has passed 10. The file at `path` held `prior`. */
    method Retry(path: string, prior: seq<string>, message: string, appendFails: nat -> bool)
      returns (r: Result<(), string>, attempts: nat)
      requires storeTries <= MaxTries
      requires path in files ==> files[path] == prior
      requires path !in files ==> prior == []
      modifies this
      ensures FirstSuccess(MaxTries + 1 - old(storeTries), appendFails).Some? ==>
        r == Success(()) && attempts == FirstSuccess(MaxTries + 1 - old(storeTries), appendFails).value + 1 &&
        storeTries == 0 && files == old(files)[path := prior + [message]]
      ensures FirstSuccess(MaxTries + 1 - old(storeTries), appendFails).None? ==>
        r == Failure(StoreError) && attempts == MaxTries + 1 - old(storeTries) && storeTries == MaxTries + 1 &&
        files == old(files)[path := prior]
      ensures attempts > 1 || r.Failure? ==> dirs == old(dirs) + {logDirectory}
      ensures attempts == 1 && r.Success? ==> dirs == old(dirs)
      ensures console == old(console)
    {
      attempts := 0;
      ghost var budget := MaxTries + 1 - storeTries;
      while true
        invariant storeTries == MaxTries + 1 - budget + attempts && attempts < budget
        invariant forall k :: 0 <= k < attempts ==> appendFails(k)
        invariant attempts == 0 ==> dirs == old(dirs) && files == old(files)
        invariant attempts > 0 ==> dirs == old(dirs) + {logDirectory} && files == old(files)[path := prior]
        invariant console == old(console)
        decreases budget - attempts
      {
        var stored := Attempt(path, prior, message, appendFails(attempts));
        attempts := attempts + 1;
        if stored {
          FirstSuccessIs(budget, appendFails, attempts - 1);
          return Success(()), attempts;
        }
        if storeTries > MaxTries {
          assert attempts == budget;
          assert FirstSuccess(budget, appendFails).None?;
          return Failure(StoreError), attempts;
        }
      }
    }

    /** One attempt of `store`: counts it, appends the line to `path` (whose
        lines were `prior`) and resets the counter; when the append fails,
        creates the directory and an empty file where missing instead. */
    method Attempt(path: string, prior: seq<string>, message: string, fails: bool) returns (stored: bool)
      requires path in files ==> files[path] == prior
      requires path !in files ==> prior == []
      modifies this
      ensures stored == !fails
      ensures !fails ==> storeTries == 0 && dirs == old(dirs) && files == old(files)[path := prior + [message]]
      ensures fails ==>
        storeTries == old(storeTries) + 1 && dirs == old(dirs) + {logDirectory} && files == old(files)[path := prior]
      ensures console == old(console)
    {
      storeTries := storeTries + 1;
      if !fails {
        files := files[path := prior + [message]];
        storeTries := 0;
        return true;
      }
      if logDirectory !in dirs {
        dirs := dirs + {logDirectory};
      }
      if path !in files {
        files := files[path := []];
      }
      return false;
    }

    /** `log`, `info`, `warn`, `error` and `debug`: print the line (for
        `debug` only when debugging is enabled) and store it, whatever the
        level. The store is started but not awaited, so the call itself
        always resolves; a store that rejects leaves its rejection
        unhandled, returned here as `unhandled`. */
    method Write(level: Level, message: string, iso: string, appendFails: nat -> bool)
      returns (unhandled: Option<string>)
      modifies this
      ensures var line := BuildMessage(DateTimestamp(iso), LevelName(level), message);
        console == old(console) + (if level != Debug || debugEnabled then [line] else [])
      ensures old(storeTries) > MaxTries ==>
        unhandled == Some(StoreError) && storeTries == old(storeTries) && dirs == old(dirs) && files == old(files)
      ensures old(storeTries) <= MaxTries && FirstSuccess(MaxTries + 1 - old(storeTries), appendFails).Some? ==>
        var line := BuildMessage(DateTimestamp(iso), LevelName(level), message);
        unhandled == None && storeTries == 0 && LogFile(logDirectory, iso) in files &&
        files[LogFile(logDirectory, iso)] ==
          (if LogFile(logDirectory, iso) in old(files) then old(files)[LogFile(logDirectory, iso)] else []) + [line]
      ensures old(storeTries) <= MaxTries && FirstSuccess(MaxTries + 1 - old(storeTries), appendFails).None? ==>
        unhandled == Some(StoreError) && storeTries == MaxTries + 1 &&
        logDirectory in dirs && LogFile(logDirectory, iso) in files &&
        files[LogFile(logDirectory, iso)] ==
          (if LogFile(logDirectory, iso) in old(files) then old(files)[LogFile(logDirectory, iso)] else [])
      ensures forall p :: p in old(files) && p != LogFile(logDirectory, iso) ==> p in files && files[p] == old(files)[p]
      ensures forall p :: p in files && p != LogFile(logDirectory, iso) ==> p in old(files)
      ensures old(dirs) <= dirs <= old(dirs) + {logDirectory}
    {
      var line := BuildMessage(DateTimestamp(iso), LevelName(level), message);
      if level != Debug || debugEnabled {
        console := console + [line];
      }
      var stored, attempts := Store(line, iso, appendFails);
      unhandled := if stored.Failure? then Some(stored.error) else None;
    }
  }

  /** The first success found by attempt `k` is the first success of the
      whole budget. */
  lemma {:induction false} FirstSuccessIs(budget: nat, appendFails: nat -> bool, k: nat)
    requires k < budget && !appendFails(k)
    requires forall j :: 0 <= j < k ==> appendFails(j)
    ensures FirstSuccess(budget, appendFails) == Some(k)
    decreases budget
  {
    if k < budget - 1 {
      FirstSuccessIs(budget - 1, appendFails, k);
    } else {
      assert FirstSuccess(budget - 1, appendFails).None?;
    }
  }
}
