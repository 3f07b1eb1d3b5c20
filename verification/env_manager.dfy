/** The environment file manager (src/utils/EnvManager.js): the default
    `.env` contents, one `KEY=value` line per setting, and the write that
    creates the file only when it is missing. The file system is a map from
    path to contents, passed in and returned. */
module EnvManager {
  import opened JsStrings

  /** A default value as the settings object holds it. */
  datatype EnvValue = Bool(b: bool) | Num(n: nat) | Str(s: string)

  /** `${value}`: booleans print as `true`/`false`, numbers in decimal,
      strings as they are. */
  function ValueText(v: EnvValue): string {
    match v
    case Bool(b) => if b then "true" else "false"
    case Num(n) => NatToString(n)
    case Str(s) => s
  }

  /** The twelve defaults, in declaration order. */
  const DefaultEntries: seq<(string, EnvValue)> := [
    ("DEBUG", Bool(true)),
    ("PORT", Num(3000)),
    ("DISABLE_SOCKET", Bool(false)),
    ("DISABLE_EXPRESS", Bool(false)),
    ("DATABASE_URL", Str("")),
    ("CACHE_URL", Str("")),
    ("S3_ENDPOINT", Str("")),
    ("S3_PORT", Str("")),
    ("S3_USE_SSL", Bool(true)),
    ("S3_ACCESS_KEY", Str("")),
    ("S3_SECRET_KEY", Str("")),
    ("LOG_DIRECTORY", Str("./logs"))
  ]

  /** One entry's line, without its newline. */
  function EntryLine(e: (string, EnvValue)): string {
    e.0 + "=" + ValueText(e.1)
  }

  /** The reduce over the entries: each one's line and a newline, in order. */
  function Serialize(entries: seq<(string, EnvValue)>): string {
    if entries == [] then ""
    else EntryLine(entries[0]) + "\n" + Serialize(entries[1..])
  }

  /** `getDefaultSecrets` */
  function DefaultSecrets(): string {
    Serialize(DefaultEntries)
  }

  /** An entry whose key and value hold no newline. */
  predicate SingleLine(e: (string, EnvValue)) {
    '\n' !in EntryLine(e)
  }

  function Lines(entries: seq<(string, EnvValue)>): (lines: seq<string>)
    ensures |lines| == |entries|
    ensures forall i :: 0 <= i < |entries| ==> lines[i] == EntryLine(entries[i])
  {
    if entries == [] then [] else [EntryLine(entries[0])] + Lines(entries[1..])
  }

  /** The text of a non-empty list splits into the first entry's line and
      the pieces of the rest. */
  lemma SerializeStep(entries: seq<(string, EnvValue)>)
    requires entries != [] && SingleLine(entries[0])
    ensures Split(Serialize(entries), '\n') == [EntryLine(entries[0])] + Split(Serialize(entries[1..]), '\n')
  {
    var head := EntryLine(entries[0]);
    assert Serialize(entries) == head + ['\n'] + Serialize(entries[1..]);
    SplitAround(head, '\n', Serialize(entries[1..]));
    SplitWithout(head, '\n');
  }

  /** Splitting the text at newlines gives back one line per entry, in order,
      and the empty piece after the last newline. */
  lemma {:induction false} SerializeLines(entries: seq<(string, EnvValue)>)
    requires forall e :: e in entries ==> SingleLine(e)
    ensures Split(Serialize(entries), '\n') == Lines(entries) + [""]
    decreases |entries|
  {
    if entries != [] {
      var tail := entries[1..];
      SerializeLines(tail);
      SerializeStep(entries);
    }
  }

  /** The key of a line: what comes before its first `=`. */
  function LineKey(line: string): string {
    Split(line, '=')[0]
  }

  /** The value of a line: everything after its first `=`. */
  function LineValue(line: string): string {
    Join(Split(line, '=')[1..], "=")
  }

  /** Splitting a line at its first `=` gives back its key and its value. */
  lemma EntryLineParses(key: string, v: EnvValue)
    requires '=' !in key
    ensures LineKey(EntryLine((key, v))) == key
    ensures LineValue(EntryLine((key, v))) == ValueText(v)
  {
    assert EntryLine((key, v)) == key + ['='] + ValueText(v);
    SplitAround(key, '=', ValueText(v));
    SplitWithout(key, '=');
    assert Split(EntryLine((key, v)), '=')[1..] == Split(ValueText(v), '=');
    JoinSplit(ValueText(v), '=');
  }

  /** Entries whose lines can be read back: no newline anywhere and no `=`
      in a key. */
  predicate Readable(entries: seq<(string, EnvValue)>) {
    forall i :: 0 <= i < |entries| ==> SingleLine(entries[i]) && '=' !in entries[i].0
  }

  /** The text has exactly one line per entry, in order, each the key, `=`
      and the printed value, and each splits back into that key and value. */
  lemma SerializeParses(entries: seq<(string, EnvValue)>)
    requires Readable(entries)
    ensures var pieces := Split(Serialize(entries), '\n');
      |pieces| == |entries| + 1 && pieces[|entries|] == "" &&
      forall i :: 0 <= i < |entries| ==>
        pieces[i] == entries[i].0 + "=" + ValueText(entries[i].1) &&
        LineKey(pieces[i]) == entries[i].0 && LineValue(pieces[i]) == ValueText(entries[i].1)
  {
    SerializeLines(entries);
    forall i | 0 <= i < |entries|
      ensures LineKey(EntryLine(entries[i])) == entries[i].0
      ensures LineValue(EntryLine(entries[i])) == ValueText(entries[i].1)
    {
      EntryLineParses(entries[i].0, entries[i].1);
    }
  }

  lemma PortLine()
    ensures EntryLine(("PORT", Num(3000))) == "PORT=3000"
  {
  }

  /** An entry whose key has neither a newline nor an `=` and whose value,
      if a string, has no newline. */
  predicate PlainEntry(e: (string, EnvValue)) {
    '\n' !in e.0 && '=' !in e.0 && (e.1.Str? ==> '\n' !in e.1.s)
  }

  /** A plain entry can be read back. */
  lemma PlainEntryReadable(e: (string, EnvValue))
    requires PlainEntry(e)
    ensures SingleLine(e) && '=' !in e.0
  {
    assert '\n' !in ValueText(e.1) by {
      if e.1.Num? {
        var t := NatToString(e.1.n);
        assert forall i :: 0 <= i < |t| ==> t[i] != '\n';
      }
    }
    assert EntryLine(e) == e.0 + "=" + ValueText(e.1);
  }

  /** Every default is plain. */
  lemma DefaultsPlain()
    ensures forall i :: 0 <= i < |DefaultEntries| ==> PlainEntry(DefaultEntries[i])
  {
  }

  /** Every default line can be read back, so by `SerializeParses` the
      default file has one line per default, in declaration order, each
      splitting back into that default's key and printed value. */
  lemma DefaultsReadable()
    ensures Readable(DefaultEntries)
  {
    DefaultsPlain();
    forall i | 0 <= i < |DefaultEntries|
      ensures SingleLine(DefaultEntries[i]) && '=' !in DefaultEntries[i].0
    {
      PlainEntryReadable(DefaultEntries[i]);
    }
  }

  /** The printed values read as the defaults: booleans as `true`/`false`,
      the port in decimal, empty strings as nothing after the `=`. */
  lemma DefaultValuesPrinted()
    ensures EntryLine(DefaultEntries[0]) == "DEBUG=true"
    ensures EntryLine(DefaultEntries[1]) == "PORT=3000"
    ensures EntryLine(DefaultEntries[2]) == "DISABLE_SOCKET=false"
    ensures EntryLine(DefaultEntries[4]) == "DATABASE_URL="
    ensures EntryLine(DefaultEntries[11]) == "LOG_DIRECTORY=./logs"
  {
    assert DefaultEntries[1] == ("PORT", Num(3000));
    PortLine();
  }

  /** `createEnvFile(path, overwrite)`: an existing file is left alone unless
      `overwrite` is set; otherwise the defaults are written. */
  function CreateEnvFile(path: string, overwrite: bool, fs: map<string, string>): (r: map<string, string>)
    ensures path in r
    ensures path in fs && !overwrite ==> r == fs
    ensures path !in fs || overwrite ==> r[path] == DefaultSecrets()
    ensures forall p :: p != path ==> (p in r <==> p in fs) && (p in fs ==> r[p] == fs[p])
  {
    if path in fs && !overwrite then fs else fs[path := DefaultSecrets()]
  }

  /** `load(path)`: makes sure the file exists, never overwriting it, before
      the settings are read from it (reading them is not part of the model);
      the result is the file system and the text the settings are read
      from. */
  function Load(path: string, fs: map<string, string>): (r: (map<string, string>, string))
    ensures path in r.0 && r.1 == r.0[path]
    ensures path in fs ==> r.0 == fs && r.1 == fs[path]
    ensures path !in fs ==> r.1 == DefaultSecrets()
  {
    var written := CreateEnvFile(path, false, fs);
    (written, written[path])
  }
}
