/** Convention-based loading shared by the socket, event and queue services:
    every `.js` file found under a folder is loaded, checked to extend the
    expected base class, and instantiated under a name derived from its
    relative path; the services then keep name-indexed tables of them.
    Enumerating and loading the files is outside the model: the files
    arrive as a list of relative paths with the outcome of the subclass
    check and what the loaded class declares. */
module Discovery {
  import opened Wrappers
  import opened JsStrings

  /** A file found by the folder scan: its path relative to the folder,
      whether its export extends the expected base class, and what the
      class declares (guards of a handler, queue of a worker, ...). */
  datatype SourceFile<A> = SourceFile(relPath: string, isSubtype: bool, decl: A)

  /** An instance made from a source file, under its derived name. */
  datatype Loaded<A> = Loaded(name: string, file: string, decl: A)

  /** The name an artifact gets: its relative path with the first ".js"
      removed. */
  function ArtifactName(relPath: string): string {
    ReplaceFirst(relPath, ".js", "")
  }

  /** A file named `x + ".js"`, with no other ".js" in it, is named `x`. */
  lemma ArtifactNameOfJsFile(x: string)
    requires !HasInfix(x, ".js")
    ensures ArtifactName(x + ".js") == x
  {
    StripJsExtension(x);
  }

  /** The index of the first file that fails the subclass check. */
  function FirstInvalid<A>(files: seq<SourceFile<A>>): (r: Option<nat>)
    ensures r.None? <==> forall i :: 0 <= i < |files| ==> files[i].isSubtype
    ensures r.Some? ==> r.value < |files| && !files[r.value].isSubtype &&
                        forall i :: 0 <= i < r.value ==> files[i].isSubtype
  {
    if files == [] then None
    else if !files[0].isSubtype then Some(0)
    else match FirstInvalid(files[1..])
      case None => None
      case Some(k) => Some(k + 1)
  }

  /** Loading the scanned files (a `map` over them): the first file that
      does not extend the base class throws `<file> is not a valid <kind>`;
      otherwise every file becomes one instance, in scan order, named by
      `ArtifactName`. */
  function LoadAll<A>(files: seq<SourceFile<A>>, kind: string): (r: Result<seq<Loaded<A>>, string>)
    ensures r.Success? <==> forall i :: 0 <= i < |files| ==> files[i].isSubtype
    ensures r.Success? ==>
      |r.value| == |files| &&
      forall i :: 0 <= i < |files| ==>
        r.value[i] == Loaded(ArtifactName(files[i].relPath), files[i].relPath, files[i].decl)
    ensures r.Failure? ==>
      exists k :: 0 <= k < |files| && !files[k].isSubtype &&
        (forall i :: 0 <= i < k ==> files[i].isSubtype) &&
        r.error == files[k].relPath + " is not a valid " + kind
  {
    match FirstInvalid(files)
    case Some(k) => Failure(files[k].relPath + " is not a valid " + kind)
    case None =>
      Success(seq(|files|, i requires 0 <= i < |files| =>
        Loaded(ArtifactName(files[i].relPath), files[i].relPath, files[i].decl)))
  }

  /** The table a loop `table[name] = value` over `entries` leaves behind,
      starting from `table`. */
  function Register<V>(table: map<string, V>, entries: seq<(string, V)>): map<string, V>
    decreases |entries|
  {
    if entries == [] then table
    else
      var last := entries[|entries| - 1];
      Register(table, entries[..|entries| - 1])[last.0 := last.1]
  }

  /** The keys after registration are the earlier keys and the names. */
  lemma {:induction false} RegisterKeys<V>(table: map<string, V>, entries: seq<(string, V)>)
    ensures forall k :: k in Register(table, entries) <==>
      (k in table || exists i :: 0 <= i < |entries| && entries[i].0 == k)
    decreases |entries|
  {
    if entries != [] {
      var n := |entries| - 1;
      RegisterKeys(table, entries[..n]);
      forall k | k in Register(table, entries)
        ensures k in table || exists i :: 0 <= i < |entries| && entries[i].0 == k
      {
        if k != entries[n].0 {
          assert k in Register(table, entries[..n]);
          if k !in table {
            var i :| 0 <= i < n && entries[..n][i].0 == k;
            assert entries[i].0 == k;
          }
        }
      }
      forall k | k in table || exists i :: 0 <= i < |entries| && entries[i].0 == k
        ensures k in Register(table, entries)
      {
        if k != entries[n].0 && k !in table {
          var i :| 0 <= i < |entries| && entries[i].0 == k;
          assert i < n && entries[..n][i].0 == k;
        }
      }
    }
  }

  /** A name maps to the value of its last entry: later entries overwrite
      earlier ones. */
  lemma {:induction false} RegisterLastWins<V>(table: map<string, V>, entries: seq<(string, V)>, i: nat)
    requires i < |entries|
    requires forall j :: i < j < |entries| ==> entries[j].0 != entries[i].0
    ensures entries[i].0 in Register(table, entries)
    ensures Register(table, entries)[entries[i].0] == entries[i].1
    decreases |entries|
  {
    var n := |entries| - 1;
    if i < n {
      RegisterLastWins(table, entries[..n], i);
    }
  }

  /** A key no entry names keeps its earlier value. */
  lemma {:induction false} RegisterUntouched<V>(table: map<string, V>, entries: seq<(string, V)>, k: string)
    requires k in table
    requires forall j :: 0 <= j < |entries| ==> entries[j].0 != k
    ensures k in Register(table, entries) && Register(table, entries)[k] == table[k]
    decreases |entries|
  {
    if entries != [] {
      RegisterUntouched(table, entries[..|entries| - 1], k);
    }
  }

  /** The `(name, instance)` pairs of loaded instances, in order. */
  function Named<A>(items: seq<Loaded<A>>): (entries: seq<(string, Loaded<A>)>)
    ensures |entries| == |items|
    ensures forall i :: 0 <= i < |items| ==> entries[i] == (items[i].name, items[i])
  {
    seq(|items|, i requires 0 <= i < |items| => (items[i].name, items[i]))
  }
}
