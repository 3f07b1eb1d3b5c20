/** The interactive-storage extension's path helper and the folder/file
    classification of a non-recursive object listing
    (src/extensions/interactive-storage/index.js). */
module StoragePaths {
  import opened JsStrings

  // ---------------------------------------------------------------------
  // normalizePath
  // ---------------------------------------------------------------------

  /** No two consecutive slashes. */
  predicate NoDoubleSlash(s: string) {
    forall i :: 0 <= i < |s| - 1 ==> !(s[i] == '/' && s[i + 1] == '/')
  }

  /** The shape `normalizePath` produces: no slash at either end and no run
      of two or more slashes. */
  predicate IsNormalPath(s: string) {
    (s == "" || (s[0] != '/' && s[|s| - 1] != '/')) && NoDoubleSlash(s)
  }

  /** The characters of `s` other than '/', in order. */
  function NonSlash(s: string): string {
    if s == "" then "" else (if s[0] == '/' then "" else [s[0]]) + NonSlash(s[1..])
  }

  /** `s.replace(/^\/+/, '')`: the leading run of slashes removed. */
  function DropLeadingSlashes(s: string): (r: string)
    ensures |r| <= |s| && r == s[|s| - |r|..]
    ensures r == "" || r[0] != '/'
    ensures forall i :: 0 <= i < |s| - |r| ==> s[i] == '/'
    ensures NonSlash(r) == NonSlash(s)
  {
    if |s| > 0 && s[0] == '/' then
      var r := DropLeadingSlashes(s[1..]);
      assert s[1..][|s| - 1 - |r|..] == s[|s| - |r|..];
      assert NonSlash(s) == NonSlash(s[1..]);
      r
    else s
  }

  /** `s.replace(/\/+$/, '')`: the trailing run of slashes removed. */
  function DropTrailingSlashes(s: string): (r: string)
    ensures |r| <= |s| && r == s[..|r|]
    ensures r == "" || r[|r| - 1] != '/'
    ensures forall i :: |r| <= i < |s| ==> s[i] == '/'
    ensures NonSlash(r) == NonSlash(s)
  {
    if |s| > 0 && s[|s| - 1] == '/' then
      var r := DropTrailingSlashes(s[..|s| - 1]);
      NonSlashSnoc(s[..|s| - 1], '/');
      assert s[..|s| - 1] + ['/'] == s;
      r
    else s
  }

  /** Dropping or keeping a character at the end of a string. */
  lemma {:induction false} NonSlashSnoc(s: string, ch: char)
    ensures NonSlash(s + [ch]) == NonSlash(s) + (if ch == '/' then "" else [ch])
  {
    if s != "" {
      assert (s + [ch])[1..] == s[1..] + [ch];
      NonSlashSnoc(s[1..], ch);
    } else {
      assert s + [ch] == [ch];
    }
  }

  /** `s.replace(/\/+/g, '/')`: every run of slashes collapsed to one slash. */
  function CollapseSlashes(s: string): (r: string)
    ensures |r| <= |s|
    ensures r == "" <==> s == ""
    decreases |s|
  {
    if |s| == 0 then ""
    else if s[0] == '/' then "/" + CollapseSlashes(DropLeadingSlashes(s))
    else [s[0]] + CollapseSlashes(s[1..])
  }

  /** Collapsing keeps whether each end is a slash. */
  lemma {:induction false} CollapseKeepsEnds(s: string)
    ensures s != "" ==> (CollapseSlashes(s)[0] == '/' <==> s[0] == '/')
    ensures s != "" ==> (CollapseSlashes(s)[|CollapseSlashes(s)| - 1] == '/' <==> s[|s| - 1] == '/')
    decreases |s|
  {
    if s == "" {
    } else if s[0] == '/' {
      var rest := DropLeadingSlashes(s);
      var c := CollapseSlashes(rest);
      assert CollapseSlashes(s) == "/" + c;
      if rest != "" {
        CollapseKeepsEnds(rest);
        assert rest[|rest| - 1] == s[|s| - 1];
        assert CollapseSlashes(s)[|CollapseSlashes(s)| - 1] == c[|c| - 1];
      } else {
        assert s[|s| - 1] == '/';
      }
    } else {
      assert CollapseSlashes(s) == [s[0]] + CollapseSlashes(s[1..]);
      if |s| > 1 {
        CollapseKeepsEnds(s[1..]);
      }
    }
  }

  /** Collapsing leaves no double slash. */
  lemma {:induction false} CollapseNoDoubleSlash(s: string)
    ensures NoDoubleSlash(CollapseSlashes(s))
    decreases |s|
  {
    if s != "" {
      if s[0] == '/' {
        var rest := DropLeadingSlashes(s);
        CollapseNoDoubleSlash(rest);
        if rest != "" {
          CollapseKeepsEnds(rest);
        }
      } else {
        CollapseNoDoubleSlash(s[1..]);
      }
    }
  }

  /** Collapsing keeps every character other than '/'. */
  lemma {:induction false} CollapseKeepsNonSlash(s: string)
    ensures NonSlash(CollapseSlashes(s)) == NonSlash(s)
    decreases |s|
  {
    if s != "" {
      if s[0] == '/' {
        CollapseKeepsNonSlash(DropLeadingSlashes(s));
        assert NonSlash("/" + CollapseSlashes(DropLeadingSlashes(s))) == NonSlash(CollapseSlashes(DropLeadingSlashes(s)));
      } else {
        CollapseKeepsNonSlash(s[1..]);
        assert ([s[0]] + CollapseSlashes(s[1..]))[1..] == CollapseSlashes(s[1..]);
      }
    }
  }

  /** Collapsing changes nothing in a string without a double slash. */
  lemma {:induction false} CollapseFixed(s: string)
    ensures NoDoubleSlash(s) ==> CollapseSlashes(s) == s
    decreases |s|
  {
    if s != "" && NoDoubleSlash(s) {
      if s[0] == '/' {
        assert DropLeadingSlashes(s) == s[1..] by {
          if |s| > 1 {
            assert s[1] != '/';
          }
        }
      }
      CollapseFixed(s[1..]);
    }
  }

  /** A run of `n` slashes. */
  function Slashes(n: nat): (r: string)
    ensures |r| == n
  {
    if n == 0 then "" else "/" + Slashes(n - 1)
  }

  /** Removing the leading slashes of a string that has a character other
      than '/' only touches that string's own prefix. */
  lemma {:induction false} DropLeadingAppend(x: string, y: string)
    requires DropLeadingSlashes(x) != ""
    ensures DropLeadingSlashes(x + y) == DropLeadingSlashes(x) + y
    decreases |x|
  {
    if x[0] == '/' {
      assert (x + y)[1..] == x[1..] + y;
      DropLeadingAppend(x[1..], y);
    }
  }

  /** A run of slashes in front of a string that does not start with one is
      removed entirely. */
  lemma {:induction false} DropLeadingRun(n: nat, b: string)
    requires b == "" || b[0] != '/'
    ensures DropLeadingSlashes(Slashes(n) + b) == b
    decreases n
  {
    if n > 0 {
      var t := Slashes(n - 1) + b;
      assert Slashes(n) + b == "/" + t;
      assert ("/" + t)[1..] == t;
      DropLeadingRun(n - 1, b);
    }
  }

  /** A leading run of slashes becomes one '/'. */
  lemma CollapseLeadingRun(n: nat, b: string)
    requires n >= 1
    requires b == "" || b[0] != '/'
    ensures CollapseSlashes(Slashes(n) + b) == "/" + CollapseSlashes(b)
  {
    var x := Slashes(n - 1) + b;
    var s := "/" + x;
    assert Slashes(n) + b == s;
    assert s[0] == '/';
    assert s[1..] == x;
    assert DropLeadingSlashes(s) == DropLeadingSlashes(x);
    DropLeadingRun(n, b);
    assert DropLeadingSlashes(s) == b;
    assert CollapseSlashes(s) == "/" + CollapseSlashes(DropLeadingSlashes(s));
  }

  lemma ConcatAssoc(x: string, y: string, z: string)
    ensures x + (y + z) == (x + y) + z
  {
  }

  /** Collapsing works on each side of a cut that does not fall inside a
      run of slashes: the left side ends with a character other than '/'. */
  lemma {:induction false} CollapseAppend(a: string, t: string)
    requires a == "" || a[|a| - 1] != '/'
    ensures CollapseSlashes(a + t) == CollapseSlashes(a) + CollapseSlashes(t)
    decreases |a|, 1
  {
    if a == "" {
      assert a + t == t;
    } else if a[0] != '/' {
      CollapseAppendAfterChar(a, t);
    } else {
      CollapseAppendAfterSlashes(a, t);
    }
  }

  /** `CollapseAppend` when the left side starts with a character other
      than '/': that character is kept and the rest follows by induction. */
  lemma {:induction false} CollapseAppendAfterChar(a: string, t: string)
    requires a != "" && a[0] != '/' && a[|a| - 1] != '/'
    ensures CollapseSlashes(a + t) == CollapseSlashes(a) + CollapseSlashes(t)
    decreases |a|, 0
  {
    var rest := a[1..];
    var s := a + t;
    assert s[0] == a[0] && s[1..] == rest + t;
    assert CollapseSlashes(s) == [a[0]] + CollapseSlashes(rest + t);
    CollapseAppend(rest, t);
    assert CollapseSlashes(a) == [a[0]] + CollapseSlashes(rest);
    ConcatAssoc([a[0]], CollapseSlashes(rest), CollapseSlashes(t));
  }

  /** `CollapseAppend` when the left side starts with slashes: they become
      one '/' and the rest follows by induction. */
  lemma {:induction false} CollapseAppendAfterSlashes(a: string, t: string)
    requires a != "" && a[0] == '/' && a[|a| - 1] != '/'
    ensures CollapseSlashes(a + t) == CollapseSlashes(a) + CollapseSlashes(t)
    decreases |a|, 0
  {
    var d := DropLeadingSlashes(a);
    var s := a + t;
    assert d != "" && d[|d| - 1] == a[|a| - 1];
    DropLeadingAppend(a, t);
    assert DropLeadingSlashes(s) == d + t;
    assert s[0] == '/';
    assert CollapseSlashes(s) == "/" + CollapseSlashes(d + t);
    CollapseAppend(d, t);
    assert CollapseSlashes(a) == "/" + CollapseSlashes(d);
    ConcatAssoc("/", CollapseSlashes(d), CollapseSlashes(t));
  }

  /** Every maximal run of slashes becomes exactly one '/': collapsing a
      string cut at such a run collapses the two sides on their own and
      puts one slash between them. */
  lemma CollapseRun(a: string, n: nat, b: string)
    requires n >= 1
    requires a == "" || a[|a| - 1] != '/'
    requires b == "" || b[0] != '/'
    ensures CollapseSlashes(a + Slashes(n) + b) == CollapseSlashes(a) + "/" + CollapseSlashes(b)
  {
    var t := Slashes(n) + b;
    assert a + Slashes(n) + b == a + t;
    CollapseAppend(a, t);
    CollapseLeadingRun(n, b);
    ConcatAssoc(CollapseSlashes(a), "/", CollapseSlashes(b));
  }

  /** `path.replace(/^\/+|\/+$/g, '').replace(/\/+/g, '/')`: trims the
      slashes at both ends, then collapses every inner run of slashes.
      The result is a normal path with the same non-slash characters, and a
      path that is already normal is returned unchanged. */
  function NormalizePath(path: string): (r: string)
    ensures IsNormalPath(r)
    ensures NonSlash(r) == NonSlash(path)
    ensures IsNormalPath(path) ==> r == path
  {
    var trimmed := DropTrailingSlashes(DropLeadingSlashes(path));
    assert IsNormalPath(path) ==> trimmed == path;
    CollapseNoDoubleSlash(trimmed);
    CollapseKeepsNonSlash(trimmed);
    CollapseKeepsEnds(trimmed);
    CollapseFixed(trimmed);
    CollapseSlashes(trimmed)
  }

  /** `normalizePath` is idempotent. */
  lemma NormalizePathIdempotent(path: string)
    ensures NormalizePath(NormalizePath(path)) == NormalizePath(path)
  {
  }

  /** A path normalises to "" exactly when it holds nothing but slashes. */
  lemma {:induction false} NormalizePathEmpty(path: string)
    ensures NormalizePath(path) == "" <==> NonSlash(path) == ""
  {
    var r := NormalizePath(path);
    if r != "" {
      NonSlashOfNormal(r);
    }
  }

  /** Inside a path, a run of slashes between two other characters becomes
      exactly one '/', and the two sides are normalised on their own:
      `normalizePath("a//b")` is `"a/b"`, never `"ab"`. */
  lemma NormalizeInnerRun(a: string, n: nat, b: string)
    requires n >= 1 && a != "" && b != ""
    requires a[0] != '/' && a[|a| - 1] != '/'
    requires b[0] != '/' && b[|b| - 1] != '/'
    ensures NormalizePath(a + Slashes(n) + b) == NormalizePath(a) + "/" + NormalizePath(b)
  {
    CollapseRun(a, n, b);
  }

  /** `normalizePath("a//b")` is `"a/b"`. */
  lemma NormalizeDoubleSlash()
    ensures NormalizePath("a//b") == "a/b"
  {
    var a, b := "a", "b";
    assert Slashes(2) == "//";
    assert a + Slashes(2) + b == "a//b";
    NormalizeInnerRun(a, 2, b);
    assert IsNormalPath(a) && IsNormalPath(b);
    assert NormalizePath(a) + "/" + NormalizePath(b) == "a/b";
  }

  /** A non-empty normal path has a character other than '/'. */
  lemma {:induction false} NonSlashOfNormal(s: string)
    requires s != "" && s[0] != '/'
    ensures NonSlash(s) != ""
  {
  }

  // ---------------------------------------------------------------------
  // listFilesAndFolders
  // ---------------------------------------------------------------------

  /** One object of a non-recursive listing. A common prefix (a "folder")
      carries a non-empty `prefix`; an object carries a non-empty `name`.
      A missing field is the empty string: both are falsy. */
  datatype ListingEntry = ListingEntry(prefix: string, name: string, size: nat, lastModified: int, etag: string)

  /** An entry of the browse result. */
  datatype Item =
    | Folder(name: string, fullPath: string)
    | File(name: string, fullPath: string, size: nat, lastModified: int, etag: string)

  /** `s.replace(/\/$/, '')`: at most one trailing slash removed. */
  function DropOneTrailingSlash(s: string): string {
    if |s| > 0 && s[|s| - 1] == '/' then s[..|s| - 1] else s
  }

  /** The folder name derived from a common prefix of the listing. */
  function FolderNameOf(prefix: string, commonPrefix: string): string {
    DropOneTrailingSlash(Slice(commonPrefix, |prefix|))
  }

  /** A folder name is kept when it is non-empty and holds no slash. */
  predicate AcceptedFolder(name: string) {
    name != "" && '/' !in name
  }

  /** A file name is kept unless it is the folder marker or lies in a subfolder. */
  predicate AcceptedFile(name: string) {
    name != ".folder" && '/' !in name
  }

  /** The folder names a listing yields: accepted names in order of first
      appearance, each once (the `folders` Set). */
  function FolderNames(prefix: string, listing: seq<ListingEntry>): (names: seq<string>)
    ensures forall i :: 0 <= i < |names| ==> AcceptedFolder(names[i])
    ensures forall i, j :: 0 <= i < j < |names| ==> names[i] != names[j]
    decreases |listing|
  {
    if listing == [] then []
    else
      AddFolder(prefix, FolderNames(prefix, listing[..|listing| - 1]), listing[|listing| - 1])
  }

  /** The folder names after one more entry: its name is added to the set
      when the entry is an accepted common prefix not seen before. */
  function AddFolder(prefix: string, seen: seq<string>, e: ListingEntry): (names: seq<string>)
    requires forall i :: 0 <= i < |seen| ==> AcceptedFolder(seen[i])
    requires forall i, j :: 0 <= i < j < |seen| ==> seen[i] != seen[j]
    ensures forall i :: 0 <= i < |names| ==> AcceptedFolder(names[i])
    ensures forall i, j :: 0 <= i < j < |names| ==> names[i] != names[j]
  {
    var name := FolderNameOf(prefix, e.prefix);
    if e.prefix != "" && AcceptedFolder(name) && name !in seen then seen + [name] else seen
  }

  /** The file item an entry yields, if any. */
  function FileOf(prefix: string, e: ListingEntry): seq<Item> {
    if e.prefix == "" && e.name != "" && AcceptedFile(Slice(e.name, |prefix|)) then
      [File(Slice(e.name, |prefix|), e.name, e.size, e.lastModified, e.etag)]
    else []
  }

  /** The file items a listing yields, in listing order. */
  function Files(prefix: string, listing: seq<ListingEntry>): (items: seq<Item>)
    ensures |items| <= |listing|
    ensures forall i :: 0 <= i < |items| ==> items[i].File?
    decreases |listing|
  {
    if listing == [] then []
    else Files(prefix, listing[..|listing| - 1]) + FileOf(prefix, listing[|listing| - 1])
  }

  /** `s` in reverse order. */
  function Reversed<T>(s: seq<T>): (r: seq<T>)
    ensures |r| == |s|
  {
    if s == [] then [] else [s[|s| - 1]] + Reversed(s[..|s| - 1])
  }

  /** A folder item per name, with the full path under `prefix`. */
  function FolderItems(prefix: string, names: seq<string>): (items: seq<Item>)
    ensures |items| == |names|
  {
    seq(|names|, i requires 0 <= i < |names| => Folder(names[i], prefix + names[i]))
  }

  /** The browse result for a listing: the folders, most recently first seen
      first (each was put at the front in turn), then the files. */
  function ListingItems(prefix: string, listing: seq<ListingEntry>): seq<Item> {
    FolderItems(prefix, Reversed(FolderNames(prefix, listing))) + Files(prefix, listing)
  }

  /** `#listFilesAndFolders` over the entries the listing stream delivers. */
  method ListFilesAndFolders(prefix: string, listing: seq<ListingEntry>) returns (items: seq<Item>)
    ensures items == ListingItems(prefix, listing)
  {
    var files, folders := CollectEntries(prefix, listing);
    items := PrependFolders(prefix, folders, files);
  }

  /** The stream's `data` handler over every entry: the file items in
      listing order and the folder names in order of first appearance. */
  method CollectEntries(prefix: string, listing: seq<ListingEntry>) returns (items: seq<Item>, folders: seq<string>)
    ensures items == Files(prefix, listing)
    ensures folders == FolderNames(prefix, listing)
  {
    items := [];
    folders := [];
    for i := 0 to |listing|
      invariant items == Files(prefix, listing[..i])
      invariant folders == FolderNames(prefix, listing[..i])
    {
      assert listing[..i + 1][..i] == listing[..i];
      var obj := listing[i];
      assert Files(prefix, listing[..i + 1]) == items + FileOf(prefix, obj);
      assert FolderNames(prefix, listing[..i + 1]) == AddFolder(prefix, folders, obj);
      if obj.prefix != "" {
        var folderName := DropOneTrailingSlash(Slice(obj.prefix, |prefix|));
        if folderName != "" && '/' !in folderName {
          if folderName !in folders {
            folders := folders + [folderName];
          }
        }
      } else if obj.name != "" {
        var fileName := Slice(obj.name, |prefix|);
        if fileName == ".folder" || '/' in fileName {
          continue;
        }
        items := items + [File(fileName, obj.name, obj.size, obj.lastModified, obj.etag)];
      }
    }
    assert listing[..|listing|] == listing;
  }

  /** The stream's `end` handler: each folder item is put at the front of
      the items in turn. */
  method PrependFolders(prefix: string, folders: seq<string>, files: seq<Item>) returns (items: seq<Item>)
    ensures items == FolderItems(prefix, Reversed(folders)) + files
  {
    items := files;
    for j := 0 to |folders|
      invariant items == FolderItems(prefix, Reversed(folders[..j])) + files
    {
      assert folders[..j + 1][..j] == folders[..j];
      items := [Folder(folders[j], prefix + folders[j])] + items;
    }
    assert folders[..|folders|] == folders;
  }

  /** Every folder item comes before every file item. */
  lemma FoldersBeforeFiles(prefix: string, listing: seq<ListingEntry>, i: nat, j: nat)
    requires i < j < |ListingItems(prefix, listing)|
    requires ListingItems(prefix, listing)[i].File?
    ensures ListingItems(prefix, listing)[j].File?
  {
  }

  /** Folder items have distinct, non-empty, slash-free names and the full
      path `prefix + name`. */
  lemma ListingFolderItems(prefix: string, listing: seq<ListingEntry>)
    ensures forall k :: 0 <= k < |ListingItems(prefix, listing)| && ListingItems(prefix, listing)[k].Folder? ==>
              AcceptedFolder(ListingItems(prefix, listing)[k].name) &&
              ListingItems(prefix, listing)[k].fullPath == prefix + ListingItems(prefix, listing)[k].name
    ensures forall k, l :: (0 <= k < l < |ListingItems(prefix, listing)| &&
                            ListingItems(prefix, listing)[k].Folder? && ListingItems(prefix, listing)[l].Folder?) ==>
              ListingItems(prefix, listing)[k].name != ListingItems(prefix, listing)[l].name
  {
    var names := FolderNames(prefix, listing);
    var rev := Reversed(names);
    ReversedAt(names);
    var items := ListingItems(prefix, listing);
    forall k | 0 <= k < |items| && items[k].Folder?
      ensures AcceptedFolder(items[k].name) && items[k].fullPath == prefix + items[k].name
    {
      assert k < |rev|;
      assert items[k] == Folder(rev[k], prefix + rev[k]);
    }
  }

  /** Element `k` of the reversal is element `|s| - 1 - k` of `s`. */
  lemma {:induction false} ReversedAt<T>(s: seq<T>)
    ensures forall k :: 0 <= k < |s| ==> Reversed(s)[k] == s[|s| - 1 - k]
  {
    if s != [] {
      ReversedAt(s[..|s| - 1]);
    }
  }

  /** File items are named by their full path less the first `|prefix|`
      characters, and that name is never the folder marker and never holds
      a slash. */
  lemma ListingFileItems(prefix: string, listing: seq<ListingEntry>)
    ensures forall k :: 0 <= k < |ListingItems(prefix, listing)| && ListingItems(prefix, listing)[k].File? ==>
              ListingItems(prefix, listing)[k].name == Slice(ListingItems(prefix, listing)[k].fullPath, |prefix|) &&
              AcceptedFile(ListingItems(prefix, listing)[k].name)
  {
    FilesShape(prefix, listing);
    var items := ListingItems(prefix, listing);
    var folders := FolderItems(prefix, Reversed(FolderNames(prefix, listing)));
    var files := Files(prefix, listing);
    forall k | 0 <= k < |items| && items[k].File?
      ensures items[k].name == Slice(items[k].fullPath, |prefix|) && AcceptedFile(items[k].name)
    {
      assert k >= |folders|;
      assert items[k] == files[k - |folders|];
    }
  }

  /** Every file item comes from an object entry of the listing. */
  lemma {:induction false} FilesShape(prefix: string, listing: seq<ListingEntry>)
    ensures forall k :: 0 <= k < |Files(prefix, listing)| ==>
              Files(prefix, listing)[k].name == Slice(Files(prefix, listing)[k].fullPath, |prefix|) &&
              AcceptedFile(Files(prefix, listing)[k].name)
  {
    if listing != [] {
      var init := listing[..|listing| - 1];
      FilesShape(prefix, init);
      var prev: seq<Item>, last: seq<Item> := Files(prefix, init), FileOf(prefix, listing[|listing| - 1]);
      assert Files(prefix, listing) == prev + last;
      forall k | 0 <= k < |prev + last|
        ensures (prev + last)[k].name == Slice((prev + last)[k].fullPath, |prefix|) && AcceptedFile((prev + last)[k].name)
      {
        if k < |prev| {
          assert (prev + last)[k] == prev[k];
          assert prev[k].name == Slice(prev[k].fullPath, |prefix|);
          assert AcceptedFile(prev[k].name);
        } else {
          var e := listing[|listing| - 1];
          assert last == [File(Slice(e.name, |prefix|), e.name, e.size, e.lastModified, e.etag)];
          assert (prev + last)[k] == last[0];
          assert last[0].name == Slice(last[0].fullPath, |prefix|);
          assert AcceptedFile(last[0].name);
        }
      }
    }
  }

  /** The file items of a listing split in two are those of the first part
      followed by those of the second: files keep their listing order. */
  lemma {:induction false} FilesAppend(prefix: string, a: seq<ListingEntry>, b: seq<ListingEntry>)
    ensures Files(prefix, a + b) == Files(prefix, a) + Files(prefix, b)
    decreases |b|
  {
    if b == [] {
      assert a + b == a;
    } else {
      var init, last := b[..|b| - 1], b[|b| - 1];
      assert (a + b)[..|a + b| - 1] == a + init;
      assert (a + b)[|a + b| - 1] == last;
      FilesAppend(prefix, a, init);
      assert Files(prefix, a + b) == Files(prefix, a + init) + FileOf(prefix, last);
      assert Files(prefix, b) == Files(prefix, init) + FileOf(prefix, last);
    }
  }

  /** Later entries never reorder or remove folder names already seen: the
      names of a listing's first part are a prefix of the whole listing's. */
  lemma {:induction false} FolderNamesPrefix(prefix: string, a: seq<ListingEntry>, b: seq<ListingEntry>)
    ensures |FolderNames(prefix, a)| <= |FolderNames(prefix, a + b)|
    ensures FolderNames(prefix, a + b)[..|FolderNames(prefix, a)|] == FolderNames(prefix, a)
    decreases |b|
  {
    if b == [] {
      assert a + b == a;
    } else {
      assert (a + b)[..|a + b| - 1] == a + b[..|b| - 1];
      FolderNamesPrefix(prefix, a, b[..|b| - 1]);
    }
  }

  /** The entry is a common prefix that yields `name`. */
  predicate EntryYields(prefix: string, e: ListingEntry, name: string) {
    e.prefix != "" && FolderNameOf(prefix, e.prefix) == name
  }

  /** Some common prefix of the listing yields `name`. */
  predicate YieldsFolder(prefix: string, listing: seq<ListingEntry>, name: string) {
    exists k :: 0 <= k < |listing| && EntryYields(prefix, listing[k], name)
  }

  /** A listing yields a name when its first part does or its last entry does. */
  lemma YieldsFolderSnoc(prefix: string, listing: seq<ListingEntry>, name: string)
    requires listing != []
    ensures YieldsFolder(prefix, listing, name) <==>
      YieldsFolder(prefix, listing[..|listing| - 1], name) || EntryYields(prefix, listing[|listing| - 1], name)
  {
    var init := listing[..|listing| - 1];
    if YieldsFolder(prefix, init, name) {
      var k :| 0 <= k < |init| && EntryYields(prefix, init[k], name);
      assert listing[k] == init[k];
    }
    if YieldsFolder(prefix, listing, name) {
      var k :| 0 <= k < |listing| && EntryYields(prefix, listing[k], name);
      if k < |init| {
        assert init[k] == listing[k];
      }
    }
  }

  /** A name is a folder of the listing exactly when some common prefix of
      the listing yields it and it is accepted. */
  lemma {:induction false} FolderNamesComplete(prefix: string, listing: seq<ListingEntry>, name: string)
    ensures name in FolderNames(prefix, listing) <==>
      AcceptedFolder(name) &&
      exists k :: 0 <= k < |listing| && listing[k].prefix != "" && FolderNameOf(prefix, listing[k].prefix) == name
    decreases |listing|
  {
    if listing != [] {
      var init := listing[..|listing| - 1];
      FolderNamesComplete(prefix, init, name);
      YieldsFolderSnoc(prefix, listing, name);
    }
  }
}
