/** The six JSON routes of the interactive-storage extension
    (the route files under src/extensions/interactive-storage/routes, download excepted).
    Each route is a function from the request fields it reads, and the
    outcomes of the storage calls it makes, to its reply and the storage
    calls it issued, in order. */
module StorageRoutes {
  import opened Wrappers
  import opened JsStrings
  import opened StoragePaths

  /** A value of a request body, query or parameter. Numbers are integers. */
  datatype Value = Undefined | Null | Bool(b: bool) | Num(n: int) | Str(s: string) | Arr(elems: seq<Value>) | Obj

  /** JavaScript truthiness. */
  predicate Truthy(v: Value) {
    match v
    case Undefined => false
    case Null => false
    case Bool(b) => b
    case Num(n) => n != 0
    case Str(s) => s != ""
    case Arr(_) => true
    case Obj => true
  }

  type Bytes = seq<bv8>

  /** A call the route makes on the storage service. */
  datatype StorageCall =
    | SaveFile(bucket: string, key: string, content: Bytes, contentType: string)
    | RemoveFile(bucket: string, target: Value)
    | StatObject(bucket: string, key: string)
    | ListObjects(bucket: string, prefix: string, recursive: bool)

  /** One uploaded file as the multipart parser hands it over. */
  datatype UploadedFile = UploadedFile(originalname: string, buffer: Bytes, size: nat, mimetype: string)

  /** One entry of the upload reply. */
  datatype UploadedInfo = UploadedInfo(originalName: string, fileName: string, folder: Value, size: nat, mimeType: string)

  /** What a stat of an object reports. */
  datatype Stat = Stat(size: nat, lastModified: int, etag: string, metaData: Option<map<string, string>>)

  /** The `file` object of the info reply. */
  datatype FileInfo = FileInfo(name: string, size: nat, lastModified: int, etag: string, contentType: Option<string>)

  /** A removal that failed, with the error's message. */
  datatype RemoveError = RemoveError(error: string, fileName: Value)

  /** An object of a recursive listing. */
  datatype ObjectInfo = ObjectInfo(name: string, size: nat, lastModified: int, etag: string)

  /** The object a route returns, one constructor per shape (its fields are
      the JSON keys, `None` for a key whose value is undefined), or
      `Rejected` when the route's promise rejects. */
  datatype Reply =
    | ErrorReply(success: bool, message: string, status: nat)
    | UploadReply(success: bool, message: string, files: seq<UploadedInfo>)
    | BrowseReply(success: bool, bucket: string, currentPath: Value, items: seq<Item>)
    | InfoReply(success: bool, file: FileInfo)
    | DeleteReply(success: bool, message: string, deletedCount: nat, errors: Option<seq<RemoveError>>)
    | FolderReply(success: bool, message: string, folderPath: string)
    | Rejected

  /** A route's reply together with the storage calls it issued. */
  datatype Handled = Handled(reply: Reply, calls: seq<StorageCall>)

  /** `value || ''` */
  function OrEmpty(v: Value): Value {
    if Truthy(v) then v else Str("")
  }

  /** The object-key prefix of a folder field (after `|| ''`): "" for a falsy
      folder, the normalised folder and a slash for a string, and `None`
      for any other truthy value, on which `normalizePath` throws. */
  function FolderPrefix(folder: Value): (r: Option<string>)
    ensures !Truthy(folder) ==> r == Some("")
    ensures folder.Str? && folder.s != "" ==> r == Some(NormalizePath(folder.s) + "/")
    ensures Truthy(folder) && !folder.Str? ==> r.None?
  {
    if !Truthy(folder) then Some("")
    else if folder.Str? then Some(NormalizePath(folder.s) + "/")
    else None
  }

  // ---------------------------------------------------------------------
  // upload.js
  // ---------------------------------------------------------------------

  /** The object key of an uploaded file: the folder prefix, the clock
      reading, a dash and the original name. */
  function UploadKey(prefix: string, now: nat, originalname: string): string {
    prefix + NatToString(now) + "-" + originalname
  }

  /** `UploadRoute.post`. `files` is `None` when the request has none;
      `now(i)` is the clock reading for the `i`-th file and `saveFails(i)`
      whether its save rejects (which rejects the whole route). */
  function UploadPost(bucket: string, files: Option<seq<UploadedFile>>, folder: Value,
                      now: nat -> nat, saveFails: nat -> bool): (r: Handled)
    ensures files.None? || files.value == [] ==>
      r == Handled(ErrorReply(false, "No files uploaded", 400), [])
    ensures files.Some? && files.value != [] && FolderPrefix(OrEmpty(folder)).Some? ==>
      var fs, prefix := files.value, FolderPrefix(OrEmpty(folder)).value;
      |r.calls| == |fs| &&
      forall i :: 0 <= i < |fs| ==>
        r.calls[i] == SaveFile(bucket, UploadKey(prefix, now(i), fs[i].originalname), fs[i].buffer, fs[i].mimetype)
    ensures r.reply.UploadReply? <==>
      files.Some? && files.value != [] && FolderPrefix(OrEmpty(folder)).Some? &&
      forall i :: 0 <= i < |files.value| ==> !saveFails(i)
    ensures files.Some? && files.value != [] && FolderPrefix(OrEmpty(folder)).None? ==>
      r == Handled(Rejected, [])
    ensures files.Some? && files.value != [] && FolderPrefix(OrEmpty(folder)).Some? &&
            (exists i :: 0 <= i < |files.value| && saveFails(i)) ==>
      r.reply == Rejected
    ensures r.reply.UploadReply? ==>
      var fs := files.value;
      r.reply.success && r.reply.message == "Files uploaded successfully" &&
      |r.reply.files| == |fs| &&
      forall i :: 0 <= i < |fs| ==>
        r.reply.files[i] == UploadedInfo(fs[i].originalname, r.calls[i].key, OrEmpty(folder), fs[i].size, fs[i].mimetype)
  {
    if files.None? || files.value == [] then
      Handled(ErrorReply(false, "No files uploaded", 400), [])
    else
      var fs := files.value;
      var folderValue := OrEmpty(folder);
      match FolderPrefix(folderValue)
      case None => Handled(Rejected, [])
      case Some(prefix) =>
        var calls := SaveCalls(bucket, prefix, fs, now);
        if exists i :: 0 <= i < |fs| && saveFails(i) then Handled(Rejected, calls)
        else Handled(UploadReply(true, "Files uploaded successfully", UploadInfos(fs, calls, folderValue)), calls)
  }

  /** One save per uploaded file, in order, each under its upload key. */
  function SaveCalls(bucket: string, prefix: string, fs: seq<UploadedFile>, now: nat -> nat): (calls: seq<StorageCall>)
    ensures |calls| == |fs|
    ensures forall i :: 0 <= i < |fs| ==>
      calls[i] == SaveFile(bucket, UploadKey(prefix, now(i), fs[i].originalname), fs[i].buffer, fs[i].mimetype)
  {
    seq(|fs|, i requires 0 <= i < |fs| => SaveFile(bucket, UploadKey(prefix, now(i), fs[i].originalname), fs[i].buffer, fs[i].mimetype))
  }

  /** What the reply says about each saved file: its original name, the key
      it was saved under, the folder, its size and type. */
  function UploadInfos(fs: seq<UploadedFile>, calls: seq<StorageCall>, folder: Value): (infos: seq<UploadedInfo>)
    requires |calls| == |fs| && forall i :: 0 <= i < |calls| ==> calls[i].SaveFile?
    ensures |infos| == |fs|
    ensures forall i :: 0 <= i < |fs| ==>
      infos[i] == UploadedInfo(fs[i].originalname, calls[i].key, folder, fs[i].size, fs[i].mimetype)
  {
    seq(|fs|, i requires 0 <= i < |fs| => UploadedInfo(fs[i].originalname, calls[i].key, folder, fs[i].size, fs[i].mimetype))
  }

  // ---------------------------------------------------------------------
  // browse.js
  // ---------------------------------------------------------------------

  /** `BrowseRoute.get`. `listObjects(p)` is what the non-recursive listing
      of prefix `p` delivers, or `None` when its stream fails. */
  function BrowseGet(bucket: string, folder: Value, listObjects: string -> Option<seq<ListingEntry>>): (r: Handled)
    ensures FolderPrefix(OrEmpty(folder)).Some? ==>
      var prefix := FolderPrefix(OrEmpty(folder)).value;
      r.calls == [ListObjects(bucket, prefix, false)] &&
      (listObjects(prefix).Some? ==>
        r.reply == BrowseReply(true, bucket, OrEmpty(folder), ListingItems(prefix, listObjects(prefix).value))) &&
      (listObjects(prefix).None? ==> r.reply == Rejected)
    ensures FolderPrefix(OrEmpty(folder)).None? ==> r == Handled(Rejected, [])
  {
    var folderValue := OrEmpty(folder);
    match FolderPrefix(folderValue)
    case None => Handled(Rejected, [])
    case Some(prefix) =>
      var calls := [ListObjects(bucket, prefix, false)];
      match listObjects(prefix)
      case None => Handled(Rejected, calls)
      case Some(listing) => Handled(BrowseReply(true, bucket, folderValue, ListingItems(prefix, listing)), calls)
  }

  // ---------------------------------------------------------------------
  // info.js
  // ---------------------------------------------------------------------

  /** `stat.metaData?.['content-type']` */
  function ContentType(metaData: Option<map<string, string>>): Option<string> {
    match metaData
    case None => None
    case Some(m) => if "content-type" in m then Some(m["content-type"]) else None
  }

  /** `InfoRoute.get`: a single stat of the named object; its fields on
      success, a 404 on any failure. */
  function InfoGet(bucket: string, fileName: string, stat: Result<Stat, string>): (r: Handled)
    ensures r.calls == [StatObject(bucket, fileName)]
    ensures stat.Failure? ==> r.reply == ErrorReply(false, "File not found", 404)
    ensures stat.Success? ==>
      r.reply.InfoReply? && r.reply.success && r.reply.file.name == fileName &&
      r.reply.file.size == stat.value.size && r.reply.file.lastModified == stat.value.lastModified &&
      r.reply.file.etag == stat.value.etag &&
      (stat.value.metaData.None? ==> r.reply.file.contentType.None?) &&
      (stat.value.metaData.Some? && "content-type" in stat.value.metaData.value ==>
        r.reply.file.contentType == Some(stat.value.metaData.value["content-type"])) &&
      (stat.value.metaData.Some? && "content-type" !in stat.value.metaData.value ==>
        r.reply.file.contentType.None?)
  {
    var calls := [StatObject(bucket, fileName)];
    match stat
    case Failure(_) => Handled(ErrorReply(false, "File not found", 404), calls)
    case Success(st) =>
      Handled(InfoReply(true, FileInfo(fileName, st.size, st.lastModified, st.etag, ContentType(st.metaData))), calls)
  }

  // ---------------------------------------------------------------------
  // delete.js and delete-folder.js: the per-file outcome fold
  // ---------------------------------------------------------------------

  /** A removal outcome counts as an error when it rejected with a truthy
      message (`results.filter(r => r && r.error)`). */
  predicate CountsAsError(outcome: Option<string>) {
    outcome.Some? && outcome.value != ""
  }

  /** The errors of the removals of `targets`, in target order;
      `removeError(i)` is the message the `i`-th removal rejected with. */
  function RemovalErrors(targets: seq<Value>, removeError: nat -> Option<string>): (errors: seq<RemoveError>)
    ensures |errors| <= |targets|
    decreases |targets|
  {
    if targets == [] then []
    else
      var n := |targets| - 1;
      RemovalErrors(targets[..n], removeError) +
      (if CountsAsError(removeError(n)) then [RemoveError(removeError(n).value, targets[n])] else [])
  }

  /** There is no error exactly when no removal rejected with a message. */
  lemma {:induction false} RemovalErrorsEmpty(targets: seq<Value>, removeError: nat -> Option<string>)
    ensures RemovalErrors(targets, removeError) == [] <==>
      forall i :: 0 <= i < |targets| ==> !CountsAsError(removeError(i))
    decreases |targets|
  {
    if targets != [] {
      RemovalErrorsEmpty(targets[..|targets| - 1], removeError);
    }
  }

  /** Each error names a target whose removal rejected, with its message. */
  lemma {:induction false} RemovalErrorsSound(targets: seq<Value>, removeError: nat -> Option<string>)
    ensures forall e :: e in RemovalErrors(targets, removeError) ==>
      exists i :: 0 <= i < |targets| && targets[i] == e.fileName && removeError(i) == Some(e.error) && e.error != ""
    decreases |targets|
  {
    if targets != [] {
      var n := |targets| - 1;
      RemovalErrorsSound(targets[..n], removeError);
      forall e | e in RemovalErrors(targets, removeError)
        ensures exists i :: 0 <= i < |targets| && targets[i] == e.fileName && removeError(i) == Some(e.error) && e.error != ""
      {
        if e in RemovalErrors(targets[..n], removeError) {
          var i :| 0 <= i < n && targets[..n][i] == e.fileName && removeError(i) == Some(e.error) && e.error != "";
          assert targets[i] == e.fileName;
        } else {
          assert targets[n] == e.fileName;
        }
      }
    }
  }

  /** One removal per target, in order. */
  function RemoveCalls(bucket: string, targets: seq<Value>): (calls: seq<StorageCall>)
    ensures |calls| == |targets|
    ensures forall i :: 0 <= i < |targets| ==> calls[i] == RemoveFile(bucket, targets[i])
  {
    seq(|targets|, i requires 0 <= i < |targets| => RemoveFile(bucket, targets[i]))
  }

  /** The folded envelope: deleted = removals - errors, success when there is
      no error, and the errors listed only when there is one. */
  function DeleteEnvelope(message: string -> string -> string, targets: seq<Value>,
                          removeError: nat -> Option<string>): (r: Reply)
    ensures r.DeleteReply?
    ensures r.deletedCount == |targets| - |RemovalErrors(targets, removeError)|
    ensures r.success <==> r.errors.None?
    ensures r.success <==> forall i :: 0 <= i < |targets| ==> !CountsAsError(removeError(i))
    ensures r.errors.Some? ==> r.errors.value == RemovalErrors(targets, removeError) && r.errors.value != []
  {
    var errors := RemovalErrors(targets, removeError);
    RemovalErrorsEmpty(targets, removeError);
    var deleted := |targets| - |errors|;
    DeleteReply(|errors| == 0, message(NatToString(deleted))(NatToString(|targets|)), deleted,
                if |errors| > 0 then Some(errors) else None)
  }

  /** The target list of the delete route: `fileNames || (fileName ? [fileName] : [])`. */
  function DeleteTargets(fileName: Value, fileNames: Value): Value {
    if Truthy(fileNames) then fileNames
    else if Truthy(fileName) then Arr([fileName])
    else Arr([])
  }

  /** The delete route's message. */
  function DeleteMessage(deleted: string): string -> string {
    (total: string) => "Deleted " + deleted + " of " + total + " file(s)"
  }

  /** `DeleteRoute.delete`. A target list that is not a non-empty array
      is refused before any removal; otherwise every target is removed once,
      in order, and the outcomes are folded into the envelope. */
  function Delete(bucket: string, fileName: Value, fileNames: Value, removeError: nat -> Option<string>): (r: Handled)
    ensures var t := DeleteTargets(fileName, fileNames);
      !t.Arr? || t.elems == [] ==>
        r == Handled(ErrorReply(false, "fileName or fileNames array is required", 400), [])
    ensures var t := DeleteTargets(fileName, fileNames);
      t.Arr? && t.elems != [] ==>
        r.calls == RemoveCalls(bucket, t.elems) &&
        r.reply.DeleteReply? && 0 <= r.reply.deletedCount <= |t.elems| &&
        r.reply.deletedCount == |t.elems| - |RemovalErrors(t.elems, removeError)| &&
        r.reply.message == "Deleted " + NatToString(r.reply.deletedCount) + " of " + NatToString(|t.elems|) + " file(s)" &&
        (r.reply.success <==> r.reply.errors.None?) &&
        (r.reply.success <==> forall i :: 0 <= i < |t.elems| ==> !CountsAsError(removeError(i))) &&
        r.reply.errors == (if RemovalErrors(t.elems, removeError) == [] then None
                           else Some(RemovalErrors(t.elems, removeError)))
  {
    var targets := DeleteTargets(fileName, fileNames);
    if !targets.Arr? || targets.elems == [] then
      Handled(ErrorReply(false, "fileName or fileNames array is required", 400), [])
    else
      Handled(DeleteEnvelope(DeleteMessage, targets.elems, removeError), RemoveCalls(bucket, targets.elems))
  }

  // ---------------------------------------------------------------------
  // create-folder.js
  // ---------------------------------------------------------------------

  /** The key of a folder's marker object. */
  function FolderMarker(folderPath: string): string {
    NormalizePath(folderPath) + "/.folder"
  }

  /** `CreateFolderRoute.post`: writes an empty `text/plain` marker object
      under the normalised path; `saveFails` says whether the save rejects. */
  function CreateFolderPost(bucket: string, folderPath: Value, saveFails: bool): (r: Handled)
    ensures !Truthy(folderPath) ==> r == Handled(ErrorReply(false, "Folder path is required", 400), [])
    ensures Truthy(folderPath) && !folderPath.Str? ==> r == Handled(Rejected, [])
    ensures Truthy(folderPath) && folderPath.Str? ==>
      r.calls == [SaveFile(bucket, FolderMarker(folderPath.s), [], "text/plain")] &&
      (!saveFails ==> r.reply == FolderReply(true, "Folder created successfully", NormalizePath(folderPath.s))) &&
      (saveFails ==> r.reply == Rejected)
  {
    if !Truthy(folderPath) then Handled(ErrorReply(false, "Folder path is required", 400), [])
    else if !folderPath.Str? then Handled(Rejected, [])
    else
      var normalizedPath := NormalizePath(folderPath.s);
      var calls := [SaveFile(bucket, normalizedPath + "/.folder", [], "text/plain")];
      if saveFails then Handled(Rejected, calls)
      else Handled(FolderReply(true, "Folder created successfully", normalizedPath), calls)
  }

  // ---------------------------------------------------------------------
  // delete-folder.js
  // ---------------------------------------------------------------------

  /** The delete-folder route's message. */
  function DeleteFolderMessage(deleted: string): string -> string {
    (total: string) => "Deleted folder and " + deleted + " files"
  }

  /** The removal targets of a listing: each object's full name. */
  function ListedNames(files: seq<ObjectInfo>): (names: seq<Value>)
    ensures |names| == |files|
    ensures forall i :: 0 <= i < |files| ==> names[i] == Str(files[i].name)
  {
    seq(|files|, i requires 0 <= i < |files| => Str(files[i].name))
  }

  /** The prefix the delete-folder route lists under. */
  function FolderListPrefix(folderPath: string): string {
    NormalizePath(folderPath) + "/"
  }

  /** `DeleteFolderRoute.delete`: lists every object under the normalised
      path and a slash, then removes each listed object by its full name.
      `listFiles(p)` is what the recursive listing of `p` delivers, or `None`
      when its stream fails. */
  function DeleteFolder(bucket: string, folderPath: Value, listFiles: string -> Option<seq<ObjectInfo>>,
                        removeError: nat -> Option<string>): (r: Handled)
    ensures !Truthy(folderPath) ==> r == Handled(ErrorReply(false, "Folder path is required", 400), [])
    ensures Truthy(folderPath) && !folderPath.Str? ==> r == Handled(Rejected, [])
    ensures Truthy(folderPath) && folderPath.Str? ==>
      |r.calls| >= 1 && r.calls[0] == ListObjects(bucket, FolderListPrefix(folderPath.s), true)
    ensures Truthy(folderPath) && folderPath.Str? && listFiles(FolderListPrefix(folderPath.s)).None? ==>
      r.reply == Rejected
    ensures Truthy(folderPath) && folderPath.Str? && listFiles(FolderListPrefix(folderPath.s)) == Some([]) ==>
      r == Handled(DeleteReply(true, "Folder is empty or does not exist", 0, None),
                   [ListObjects(bucket, FolderListPrefix(folderPath.s), true)])
    ensures Truthy(folderPath) && folderPath.Str? && listFiles(FolderListPrefix(folderPath.s)).Some? &&
            listFiles(FolderListPrefix(folderPath.s)).value != [] ==>
      var names := ListedNames(listFiles(FolderListPrefix(folderPath.s)).value);
      r.calls[1..] == RemoveCalls(bucket, names) &&
      r.reply.DeleteReply? && r.reply.deletedCount == |names| - |RemovalErrors(names, removeError)| &&
      r.reply.message == "Deleted folder and " + NatToString(r.reply.deletedCount) + " files" &&
      (r.reply.success <==> r.reply.errors.None?) &&
      (r.reply.success <==> forall i :: 0 <= i < |names| ==> !CountsAsError(removeError(i))) &&
      r.reply.errors == (if RemovalErrors(names, removeError) == [] then None
                         else Some(RemovalErrors(names, removeError)))
  {
    if !Truthy(folderPath) then Handled(ErrorReply(false, "Folder path is required", 400), [])
    else if !folderPath.Str? then Handled(Rejected, [])
    else
      var prefix := FolderListPrefix(folderPath.s);
      var listCall := [ListObjects(bucket, prefix, true)];
      match listFiles(prefix)
      case None => Handled(Rejected, listCall)
      case Some(files) =>
        if files == [] then
          Handled(DeleteReply(true, "Folder is empty or does not exist", 0, None), listCall)
        else
          var names := ListedNames(files);
          var calls := listCall + RemoveCalls(bucket, names);
          assert calls[1..] == RemoveCalls(bucket, names);
          Handled(DeleteEnvelope(DeleteFolderMessage, names, removeError), calls)
  }

  // ---------------------------------------------------------------------
  // How the routes fit together
  // ---------------------------------------------------------------------

  /** A file stored under a prefix, with a name free of slashes other than
      ".folder", is listed under that prefix as a file of that name. */
  lemma FileUnderPrefix(prefix: string, name: string, size: nat, lastModified: int, etag: string)
    requires AcceptedFile(name) && name != ""
    ensures FileOf(prefix, ListingEntry("", prefix + name, size, lastModified, etag)) ==
      [File(name, prefix + name, size, lastModified, etag)]
  {
    assert Slice(prefix + name, |prefix|) == name;
  }

  /** The name part of an upload key has no slash when the original name
      has none, and is not the folder marker (it starts with a digit). */
  lemma UploadNameAccepted(now: nat, originalname: string)
    requires '/' !in originalname
    ensures AcceptedFile(NatToString(now) + "-" + originalname)
  {
    var digits := NatToString(now);
    var name := digits + "-" + originalname;
    assert name[0] == digits[0];
    assert '/' !in name by {
      forall i | 0 <= i < |name| ensures name[i] != '/' {
        if i < |digits| {
          assert name[i] == digits[i];
        } else if i > |digits| {
          assert name[i] == originalname[i - |digits| - 1];
        }
      }
    }
  }

  /** A file uploaded into a folder shows up, when that folder is browsed,
      as a file named by its clock reading, a dash and its original name
      (for an original name without a slash). */
  lemma UploadedFileIsBrowsed(folder: Value, now: nat, originalname: string, size: nat, lastModified: int, etag: string)
    requires FolderPrefix(OrEmpty(folder)).Some? && '/' !in originalname
    ensures var prefix := FolderPrefix(OrEmpty(folder)).value;
      var key := UploadKey(prefix, now, originalname);
      FileOf(prefix, ListingEntry("", key, size, lastModified, etag)) ==
        [File(NatToString(now) + "-" + originalname, key, size, lastModified, etag)]
  {
    UploadListed(FolderPrefix(OrEmpty(folder)).value, now, originalname, size, lastModified, etag);
  }

  /** Under any prefix, the listing entry of an upload key is the file
      named by the clock reading, a dash and the original name. */
  lemma UploadListed(prefix: string, now: nat, originalname: string, size: nat, lastModified: int, etag: string)
    requires '/' !in originalname
    ensures FileOf(prefix, ListingEntry("", UploadKey(prefix, now, originalname), size, lastModified, etag)) ==
      [File(NatToString(now) + "-" + originalname, UploadKey(prefix, now, originalname), size, lastModified, etag)]
  {
    var name := NatToString(now) + "-" + originalname;
    UploadNameAccepted(now, originalname);
    assert UploadKey(prefix, now, originalname) == prefix + name;
    FileUnderPrefix(prefix, name, size, lastModified, etag);
  }

  /** The marker object that creating a folder writes is never shown when
      that folder is browsed. */
  lemma FolderMarkerHidden(folderPath: string, size: nat, lastModified: int, etag: string)
    requires NormalizePath(folderPath) != ""
    ensures var prefix := FolderPrefix(Str(folderPath)).value;
      FileOf(prefix, ListingEntry("", FolderMarker(folderPath), size, lastModified, etag)) == []
  {
    var prefix := FolderPrefix(Str(folderPath)).value;
    assert FolderMarker(folderPath) == prefix + ".folder";
    assert Slice(FolderMarker(folderPath), |prefix|) == ".folder";
  }

  /** Deleting a folder lists under a prefix that holds the folder's marker
      object, so the marker is among the objects it removes. */
  lemma FolderMarkerUnderDeletePrefix(folderPath: string)
    ensures StartsWith(FolderMarker(folderPath), FolderListPrefix(folderPath))
  {
    assert FolderMarker(folderPath) == FolderListPrefix(folderPath) + ".folder";
  }
}
