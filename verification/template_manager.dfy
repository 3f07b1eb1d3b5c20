/** The template manager (src/services/template-manager/index.js): a table
    from template keys (a template file's path below the templates folder
    with its first `.js` removed) to file contents, queried by first path
    segment and by prefix, and an install that copies every file of one
    template into the working directory, refusing before any write when a
    destination exists. The file system is a map from path to contents,
    passed in and returned; a write into a missing folder is not modelled. */
module TemplateManager {
  import opened Wrappers
  import opened JsStrings
  import opened Discovery

  /** No element occurs twice. */
  predicate Distinct(s: seq<string>) {
    forall i, j :: 0 <= i < j < |s| ==> s[i] != s[j]
  }

  /** `x` occurs in `s` before any occurrence of `y`. */
  predicate OccursBefore(s: seq<string>, x: string, y: string) {
    exists i :: 0 <= i < |s| && s[i] == x && y !in s[..i]
  }

  /** Adding each of `ks` in turn to an insertion-ordered set held as `a`: an
      element already present stays where it is, a new one goes at the end.
      This is how a JavaScript `Set` and the key order of an object grow. */
  function AppendNew(a: seq<string>, ks: seq<string>): seq<string>
    decreases |ks|
  {
    if ks == [] then a
    else
      var prev := AppendNew(a, ks[..|ks| - 1]);
      if ks[|ks| - 1] in prev then prev else prev + [ks[|ks| - 1]]
  }

  /** What the insertion holds: what was there, then every new element once. */
  lemma {:induction false} AppendNewSpec(a: seq<string>, ks: seq<string>)
    requires Distinct(a)
    ensures Distinct(AppendNew(a, ks))
    ensures |a| <= |AppendNew(a, ks)| && AppendNew(a, ks)[..|a|] == a
    ensures forall x :: x in AppendNew(a, ks) <==> x in a || x in ks
    decreases |ks|
  {
    if ks != [] {
      var n := |ks| - 1;
      AppendNewSpec(a, ks[..n]);
      assert ks == ks[..n] + [ks[n]];
      var prev := AppendNew(a, ks[..n]);
      if ks[n] !in prev {
        assert (prev + [ks[n]])[..|a|] == prev[..|a|];
      }
    }
  }

  /** The new elements come out in the order of their first occurrence. */
  lemma {:induction false} AppendNewOrder(a: seq<string>, ks: seq<string>, x: string, y: string)
    requires Distinct(a) && x !in a && y !in a && x != y
    requires OccursBefore(ks, x, y) && y in ks
    ensures OccursBefore(AppendNew(a, ks), x, y)
    decreases |ks|
  {
    var n := |ks| - 1;
    var prev := AppendNew(a, ks[..n]);
    AppendNewSpec(a, ks[..n]);
    var i :| 0 <= i < |ks| && ks[i] == x && y !in ks[..i];
    assert i < n;
    assert ks[..n][i] == x && ks[..n][..i] == ks[..i];
    if y in ks[..n] {
      AppendNewOrder(a, ks[..n], x, y);
      var p :| 0 <= p < |prev| && prev[p] == x && y !in prev[..p];
      if ks[n] !in prev {
        assert (prev + [ks[n]])[..p] == prev[..p];
      }
    } else {
      assert ks == ks[..n] + [ks[n]];
      assert ks[n] == y;
      assert x in prev && y !in prev;
      var p :| 0 <= p < |prev| && prev[p] == x;
      assert y !in prev[..p];
      assert (prev + [y])[p] == x && (prev + [y])[..p] == prev[..p];
    }
  }

  /** The first path segment of a key (`key.split('/')[0]`). */
  function FirstSegment(key: string): string {
    Split(key, '/')[0]
  }

  /** The first segment of each key, in key order. */
  function Segments(keys: seq<string>): (segs: seq<string>)
    ensures |segs| == |keys|
    ensures forall i :: 0 <= i < |keys| ==> segs[i] == FirstSegment(keys[i])
  {
    seq(|keys|, i requires 0 <= i < |keys| => FirstSegment(keys[i]))
  }

  /** The distinct first segments of `keys`, in first-appearance order. */
  function FirstSegments(keys: seq<string>): seq<string> {
    AppendNew([], Segments(keys))
  }

  /** `getTemplates` lists every template once, and only templates. */
  lemma FirstSegmentsSpec(keys: seq<string>)
    ensures Distinct(FirstSegments(keys))
    ensures forall t :: t in FirstSegments(keys) <==> exists k :: k in keys && FirstSegment(k) == t
  {
    var segs := Segments(keys);
    AppendNewSpec([], segs);
    forall t | t in FirstSegments(keys)
      ensures exists k :: k in keys && FirstSegment(k) == t
    {
      var i :| 0 <= i < |segs| && segs[i] == t;
      assert keys[i] in keys;
    }
    forall k | k in keys
      ensures FirstSegment(k) in FirstSegments(keys)
    {
      var i :| 0 <= i < |keys| && keys[i] == k;
      assert segs[i] == FirstSegment(k);
    }
  }

  /** The keys starting with `name` (a plain string prefix), in key order. */
  function Matching(keys: seq<string>, name: string): (r: seq<string>)
    ensures |r| <= |keys|
    ensures forall k :: k in r <==> k in keys && StartsWith(k, name)
    decreases |keys|
  {
    if keys == [] then []
    else
      var n := |keys| - 1;
      Matching(keys[..n], name) + (if StartsWith(keys[n], name) then [keys[n]] else [])
  }

  /** Where a template file is installed: the working directory joined with
      the key minus its first segment. */
  function Destination(cwd: string, key: string): string {
    cwd + "/" + Join(Split(key, '/')[1..], "/")
  }

  /** The destination drops exactly the template's own folder. */
  lemma DestinationDropsFirstSegment(cwd: string, segment: string, rest: string)
    requires '/' !in segment
    ensures Destination(cwd, segment + "/" + rest) == cwd + "/" + rest
  {
    SplitAround(segment, '/', rest);
    SplitWithout(segment, '/');
    assert Split(segment + "/" + rest, '/')[1..] == Split(rest, '/');
    JoinSplit(rest, '/');
  }

  /** The writes an install performs, in order. */
  function Writes(cwd: string, files: seq<string>, templates: map<string, string>): (w: seq<(string, string)>)
    requires forall i :: 0 <= i < |files| ==> files[i] in templates
    ensures |w| == |files|
    ensures forall i :: 0 <= i < |files| ==> w[i] == (Destination(cwd, files[i]), templates[files[i]])
  {
    seq(|files|, i requires 0 <= i < |files| => (Destination(cwd, files[i]), templates[files[i]]))
  }

  /** The first file whose destination already exists, if any. */
  function FirstExisting(cwd: string, files: seq<string>, fs: map<string, string>): (r: Option<nat>)
    ensures r.None? <==> forall i :: 0 <= i < |files| ==> Destination(cwd, files[i]) !in fs
    ensures r.Some? ==>
      r.value < |files| && Destination(cwd, files[r.value]) in fs &&
      forall j :: 0 <= j < r.value ==> Destination(cwd, files[j]) !in fs
    decreases |files|
  {
    if files == [] then None
    else
      var n := |files| - 1;
      var r := FirstExisting(cwd, files[..n], fs);
      if r.Some? then r
      else if Destination(cwd, files[n]) in fs then Some(n)
      else None
  }

  /** The key/content entries a boot writes: each file under its path with
      the first `.js` removed. */
  function TemplateEntries(files: seq<(string, string)>): (e: seq<(string, string)>)
    ensures |e| == |files|
    ensures forall i :: 0 <= i < |files| ==> e[i] == (ArtifactName(files[i].0), files[i].1)
  {
    seq(|files|, i requires 0 <= i < |files| => (ArtifactName(files[i].0), files[i].1))
  }

  function EntryKeys(e: seq<(string, string)>): (ks: seq<string>)
    ensures |ks| == |e|
    ensures forall i :: 0 <= i < |e| ==> ks[i] == e[i].0
  {
    seq(|e|, i requires 0 <= i < |e| => e[i].0)
  }

  /** The existence check over every destination, in order, stopping at
      the first that exists. */
  method FindExisting(cwd: string, files: seq<string>, fs: map<string, string>) returns (conflict: Option<nat>)
    ensures conflict == FirstExisting(cwd, files, fs)
  {
    var i := 0;
    while i < |files|
      invariant 0 <= i <= |files|
      invariant FirstExisting(cwd, files[..i], fs).None?
    {
      assert files[..i + 1][..i] == files[..i];
      if Destination(cwd, files[i]) in fs {
        assert FirstExisting(cwd, files[..i + 1], fs) == Some(i);
        PrefixFirstExisting(cwd, files, fs, i + 1);
        return Some(i);
      }
      i := i + 1;
    }
    assert files[..i] == files;
    conflict := None;
  }

  /** The write loop: each file's contents at its destination, in order. */
  method WriteFiles(cwd: string, files: seq<string>, templates: map<string, string>, fs: map<string, string>)
    returns (out: map<string, string>)
    requires forall i :: 0 <= i < |files| ==> files[i] in templates
    ensures out == Register(fs, Writes(cwd, files, templates))
  {
    out := fs;
    ghost var w := Writes(cwd, files, templates);
    for j := 0 to |files|
      invariant out == Register(fs, w[..j])
    {
      assert w[..j + 1][..j] == w[..j];
      out := out[Destination(cwd, files[j]) := templates[files[j]]];
    }
    assert w[..|files|] == w;
  }

  const BootMessage := "Loaded undefined templates"

  class TemplateManager {
    /** The table's keys in insertion order (`Object.keys(this.templates)`). */
    var keys: seq<string>
    /** `templates`: key to file contents. */
    var templates: map<string, string>

    /** The key order lists exactly the table's keys, each once. */
    ghost predicate Valid()
      reads this
    {
      Distinct(keys) && forall k :: k in templates <==> k in keys
    }

    constructor()
      ensures Valid() && keys == [] && templates == map[]
    {
      keys := [];
      templates := map[];
    }

    /** `boot`: stores each template file's contents under its key, a later
        file with the same key replacing the earlier contents but keeping the
        key's place, and logs a message whose count reads `undefined`
        (an object has no `length`). `files` are the (relative path,
        contents) pairs the scan finds. */
    method Boot(files: seq<(string, string)>) returns (message: string)
      requires Valid()
      modifies this
      ensures Valid()
      ensures templates == Register(old(templates), TemplateEntries(files))
      ensures keys == AppendNew(old(keys), EntryKeys(TemplateEntries(files)))
      ensures message == BootMessage
    {
      ghost var entries := TemplateEntries(files);
      for i := 0 to |files|
        invariant Valid()
        invariant templates == Register(old(templates), entries[..i])
        invariant keys == AppendNew(old(keys), EntryKeys(entries[..i]))
      {
        var key := ArtifactName(files[i].0);
        assert entries[..i + 1][..i] == entries[..i];
        assert EntryKeys(entries[..i + 1])[..i] == EntryKeys(entries[..i]);
        if key !in templates {
          keys := keys + [key];
        }
        templates := templates[key := files[i].1];
      }
      assert entries[..|files|] == entries;
      message := BootMessage;
    }

    /** `installFile(fileName, location)`: an unknown key, or one whose
        contents are empty (a falsy string), is refused; otherwise the
        contents are written at `location`. */
    function InstallFile(fileName: string, location: string, fs: map<string, string>): (r: Result<map<string, string>, string>)
      reads this
      ensures r.Failure? <==> fileName !in templates || templates[fileName] == ""
      ensures r.Failure? ==> r.error == "Template " + fileName + " not found"
      ensures r.Success? ==>
        location in r.value && r.value[location] == templates[fileName] &&
        forall p :: p in fs && p != location ==> p in r.value && r.value[p] == fs[p]
    {
      if fileName !in templates || templates[fileName] == "" then Failure("Template " + fileName + " not found")
      else Success(fs[location := templates[fileName]])
    }

    /** `getTemplates`: the first segment of every key, each once, in the
        order of first appearance. */
    method GetTemplates() returns (names: seq<string>)
      ensures names == FirstSegments(keys)
    {
      ghost var segs := Segments(keys);
      names := [];
      for i := 0 to |keys|
        invariant names == AppendNew([], segs[..i])
      {
        assert segs[..i + 1][..i] == segs[..i];
        var segment := Split(keys[i], '/')[0];
        if segment !in names {
          names := names + [segment];
        }
      }
      assert segs[..|keys|] == segs;
    }

    /** `getTemplate(name)`: the keys that start with `name`; none is an
        error. */
    function GetTemplate(name: string): (r: Result<seq<string>, string>)
      reads this
      ensures r.Failure? <==> forall k :: k in keys ==> !StartsWith(k, name)
      ensures r.Failure? ==> r.error == "Template " + name + " not found"
      ensures r.Success? ==> forall k :: k in r.value <==> k in keys && StartsWith(k, name)
    {
      var files := Matching(keys, name);
      if files == [] then Failure("Template " + name + " not found")
      else assert files[0] in files; Success(files)
    }

    /** `installTemplate(name)`: a name that is empty or not a template is
        refused before anything else; then every destination is checked and
        the first one that exists refuses the install before any write;
        then each file is written at its destination in key order. */
    method InstallTemplate(name: string, cwd: string, fs: map<string, string>) returns (r: Result<map<string, string>, string>)
      requires Valid()
      ensures (name == "" || name !in FirstSegments(keys)) ==> r == Failure("Template " + name + " not found")
      ensures name != "" && name in FirstSegments(keys) ==>
        var files := Matching(keys, name);
        match FirstExisting(cwd, files, fs)
        case Some(i) => r == Failure("File " + files[i] + " already exists")
        case None => r == Success(Register(fs, Writes(cwd, files, templates)))
    {
      var names := GetTemplates();
      if name == "" || name !in names {
        return Failure("Template " + name + " not found");
      }
      FirstSegmentsSpec(keys);
      var k :| k in keys && FirstSegment(k) == name;
      SplitFirstIsPrefix(k, '/');
      var found := GetTemplate(name);
      if found.Failure? {
        assert false;
        return Failure("Template " + name + " not found");
      }
      var files := found.value;
      assert files == Matching(keys, name);
      var conflict := FindExisting(cwd, files, fs);
      if conflict.Some? {
        return Failure("File " + files[conflict.value] + " already exists");
      }
      var out := WriteFiles(cwd, files, templates, fs);
      r := Success(out);
    }
  }

  /** When the first existing destination lies in a prefix, it is also the
      first of the whole list. */
  lemma {:induction false} PrefixFirstExisting(cwd: string, files: seq<string>, fs: map<string, string>, n: nat)
    requires n <= |files| && FirstExisting(cwd, files[..n], fs).Some?
    ensures FirstExisting(cwd, files, fs) == FirstExisting(cwd, files[..n], fs)
    decreases |files|
  {
    if n < |files| {
      var m := |files| - 1;
      assert files[..m][..n] == files[..n];
      PrefixFirstExisting(cwd, files[..m], fs, n);
      assert FirstExisting(cwd, files[..m], fs).Some?;
      assert FirstExisting(cwd, files, fs) == FirstExisting(cwd, files[..m], fs);
    } else {
      assert files[..n] == files;
    }
  }

  /** A successful install writes every file of the template and changes
      no file that existed before. */
  lemma InstallWritesAll(cwd: string, files: seq<string>, templates: map<string, string>, fs: map<string, string>)
    requires forall i :: 0 <= i < |files| ==> files[i] in templates
    requires FirstExisting(cwd, files, fs).None?
    ensures forall p :: p in fs ==>
      p in Register(fs, Writes(cwd, files, templates)) && Register(fs, Writes(cwd, files, templates))[p] == fs[p]
    ensures forall i :: 0 <= i < |files| ==> Destination(cwd, files[i]) in Register(fs, Writes(cwd, files, templates))
  {
    var w := Writes(cwd, files, templates);
    RegisterKeys(fs, w);
    forall p | p in fs
      ensures p in Register(fs, w) && Register(fs, w)[p] == fs[p]
    {
      RegisterUntouched(fs, w, p);
    }
    forall i | 0 <= i < |files|
      ensures Destination(cwd, files[i]) in Register(fs, w)
    {
      assert w[i].0 == Destination(cwd, files[i]);
    }
  }

  /** A file whose destination no later file shares ends up with its own
      contents. */
  lemma InstallWritesContents(cwd: string, files: seq<string>, templates: map<string, string>, fs: map<string, string>, i: nat)
    requires forall j :: 0 <= j < |files| ==> files[j] in templates
    requires i < |files|
    requires forall j :: i < j < |files| ==> Destination(cwd, files[j]) != Destination(cwd, files[i])
    ensures Destination(cwd, files[i]) in Register(fs, Writes(cwd, files, templates))
    ensures Register(fs, Writes(cwd, files, templates))[Destination(cwd, files[i])] == templates[files[i]]
  {
    RegisterLastWins(fs, Writes(cwd, files, templates), i);
  }
}
