# zyket core, modelled in Dafny

zyket is a Node.js scaffold for socket and HTTP back ends. This project
models the parts of it that carry its own sequential logic:

- **Interactive-storage extension.** The path normaliser, the folder/file
  classification of an object listing, the constructor defaults, the route
  wiring of `load`, the bucket check, and the six JSON routes (upload,
  browse, info, delete, create-folder, delete-folder).
- **Boot.** The environment-driven list of built-in services, the kernel's
  argument-token resolution, registration passes and sequential boot that
  stops at the first failure, and the HTTP server's port check and
  start-once guard.
- **Convention registries.** The Socket.IO guard table and guard-then-handler
  dispatch, the event table with `emit`/`emitAsync`, the BullMQ `QUEUES`
  parsing and worker filtering, and the template manager's key-to-content
  table with its install, which refuses before any write when a
  destination already exists.
- **Helpers.** The logger's line format and its bounded retry counter in
  `store`, and the environment-file serialiser with its write-if-absent.
- **Auth template.** Password hashing and checking, session tokens kept in
  the cache under `auth:<token>`, and the register, login and logout socket
  handlers.

Everything outside the process is a parameter:

- The file system is a map from path to contents, or a flag saying whether a
  path exists.
- The object store, the cache and the database are outcome oracles (which
  call fails, with what message) or classes holding the keys they store.
- The clock is a parameter: an ISO string or a millisecond count.
- The key derivation, the random bytes, the e-mail validator and the
  library objects are opaque functions or plain inputs.

What a component does to the outside world is returned as a trace of
effects, in order. Code that updates fields in place is a class:

- the kernel;
- the HTTP server;
- the socket, event, queue and template services;
- the logger;
- the extension object;
- the session cache;
- the socket;
- the user table.

Loops become methods proved against specification functions. The module
`JsStrings` models the JavaScript string built-ins the code relies on:
`slice`, `split`, `join`, `trim`, `replace` of the first match, `startsWith`,
`toUpperCase` and number printing. The module `Discovery` models the shared
convention of loading every `.js` file of a folder under its path less
`.js`.

## Model

| member | source | states |
|---|---|---|
| StoragePaths.NormalizePath | src/extensions/interactive-storage/index.js:150-153 | The result has no slash at either end, no two consecutive slashes, and the same non-slash characters in the same order; a path already in that shape is returned unchanged |
| StoragePaths.NormalizePathIdempotent | src/extensions/interactive-storage/index.js:150-153 | Normalising twice gives the same as normalising once |
| StoragePaths.NormalizePathEmpty | src/extensions/interactive-storage/index.js:150-153 | A path normalises to the empty string exactly when it holds nothing but slashes |
| StoragePaths.DropLeadingSlashes | src/extensions/interactive-storage/index.js:152 | `^\/+` removal: the result is a suffix of the input without a leading slash, only slashes were dropped, and the non-slash characters are kept |
| StoragePaths.DropTrailingSlashes | src/extensions/interactive-storage/index.js:152 | `\/+$` removal: the result is a prefix of the input without a trailing slash, only slashes were dropped, and the non-slash characters are kept |
| StoragePaths.CollapseSlashes | src/extensions/interactive-storage/index.js:152 | The `\/+` to `/` replacement never lengthens the text and is empty only on empty input |
| StoragePaths.DropLeadingAppend | src/extensions/interactive-storage/index.js:152 | Removing the leading slashes of a text that has a non-slash character touches only that text, not what follows it |
| StoragePaths.DropLeadingRun | src/extensions/interactive-storage/index.js:152 | A run of slashes before a text that does not start with one is removed entirely |
| StoragePaths.CollapseLeadingRun | src/extensions/interactive-storage/index.js:152 | A leading run of one or more slashes becomes exactly one `/` |
| StoragePaths.CollapseAppend | src/extensions/interactive-storage/index.js:152 | Collapsing a text cut where the left part does not end in a slash collapses the two parts separately |
| StoragePaths.CollapseAppendAfterChar | src/extensions/interactive-storage/index.js:152 | The same, when the left part starts with a non-slash character |
| StoragePaths.CollapseAppendAfterSlashes | src/extensions/interactive-storage/index.js:152 | The same, when the left part starts with slashes |
| StoragePaths.CollapseRun | src/extensions/interactive-storage/index.js:152 | Every maximal run of slashes becomes exactly one `/`, with the text on either side collapsed on its own |
| StoragePaths.NormalizeInnerRun | src/extensions/interactive-storage/index.js:150-153 | Inside a path, a run of slashes between two non-slash characters becomes exactly one `/` and both sides are normalised separately |
| StoragePaths.NormalizeDoubleSlash | src/extensions/interactive-storage/index.js:150-153 | `normalizePath("a//b")` is `"a/b"` |
| StoragePaths.CollapseKeepsEnds | src/extensions/interactive-storage/index.js:152 | Collapsing keeps whether the first and the last character are slashes |
| StoragePaths.CollapseNoDoubleSlash | src/extensions/interactive-storage/index.js:152 | After collapsing no two consecutive slashes remain |
| StoragePaths.CollapseKeepsNonSlash | src/extensions/interactive-storage/index.js:152 | Collapsing keeps every non-slash character in order |
| StoragePaths.CollapseFixed | src/extensions/interactive-storage/index.js:152 | A text without a double slash is unchanged by collapsing |
| StoragePaths.NonSlashSnoc | src/extensions/interactive-storage/index.js:152 | Appending a character adds it to the non-slash characters unless it is a slash |
| StoragePaths.NonSlashOfNormal | src/extensions/interactive-storage/index.js:150-153 | A non-empty text that does not start with a slash has a non-slash character |
| StoragePaths.FolderNames | src/extensions/interactive-storage/index.js:102-112 | The folder names collected from the listing are all non-empty and slash-free, and pairwise distinct, as the Set keeps them |
| StoragePaths.AddFolder | src/extensions/interactive-storage/index.js:107-112 | Handling one more entry keeps the names accepted and distinct |
| StoragePaths.Files | src/extensions/interactive-storage/index.js:113-129 | The file items are at most one per listing entry and all of kind file |
| StoragePaths.Reversed | src/extensions/interactive-storage/index.js:135-141 | Reversal keeps the length |
| StoragePaths.ReversedAt | src/extensions/interactive-storage/index.js:135-141 | Element k of the reversal is element n-1-k of the original, which is what repeated `unshift` produces |
| StoragePaths.FolderItems | src/extensions/interactive-storage/index.js:136-140 | One folder item per name |
| StoragePaths.ListFilesAndFolders | src/extensions/interactive-storage/index.js:99-148 | The data handler over every listing entry followed by the end handler yields the folder items (most recently first seen first) followed by the file items in listing order |
| StoragePaths.CollectEntries | src/extensions/interactive-storage/index.js:106-131 | The data-handler loop leaves exactly the file items and the folder-name Set of the whole listing |
| StoragePaths.PrependFolders | src/extensions/interactive-storage/index.js:133-141 | The end-handler loop of `unshift`s puts the folder items, in reverse Set order, before the file items |
| StoragePaths.FoldersBeforeFiles | src/extensions/interactive-storage/index.js:122-141 | Every folder item precedes every file item: nothing after a file item is a folder |
| StoragePaths.ListingFolderItems | src/extensions/interactive-storage/index.js:102-140 | Every folder item has a non-empty, slash-free name and full path `prefix + name`, and no two folder items share a name |
| StoragePaths.ListingFileItems | src/extensions/interactive-storage/index.js:115-125 | Every file item's name is its full path less the first `prefix.length` characters, and is neither `.folder` nor contains a slash |
| StoragePaths.FilesShape | src/extensions/interactive-storage/index.js:115-125 | The same shape facts for the file items of any listing |
| StoragePaths.FilesAppend | src/extensions/interactive-storage/index.js:122 | Files of a listing split in two are the files of each part, in order, so files keep listing order |
| StoragePaths.FolderNamesPrefix | src/extensions/interactive-storage/index.js:102-111 | Later entries never reorder or remove folder names already seen |
| StoragePaths.YieldsFolderSnoc | src/extensions/interactive-storage/index.js:107-112 | A listing yields a folder name exactly when its first part or its last entry does |
| StoragePaths.FolderNamesComplete | src/extensions/interactive-storage/index.js:107-112 | A name is a folder of the listing if and only if it is accepted (non-empty, slash-free) and some common-prefix entry yields it after dropping `prefix.length` characters and one trailing slash |
| StorageExtension.InteractiveStorageExtension.constructor | src/extensions/interactive-storage/index.js:19-25 | Undefined or empty `path` becomes `/storage`, undefined bucket becomes `dropbox`, undefined size ceiling becomes 100·1024·1024, missing middlewares become `[]` |
| StorageExtension.InteractiveStorageExtension.Load | src/extensions/interactive-storage/index.js:27-64 | Without s3 (checked first) or without express only a warning is logged; otherwise the bucket listing starts, then the seven routes are registered under `path` in fixed order with the upload parser as the upload route's only POST middleware, then the base path is logged |
| StorageExtension.EnsureBucket | src/extensions/interactive-storage/index.js:66-78 | The bucket is created if and only if the listing succeeded without that name; a failed listing logs `Error ensuring bucket exists: <message>` and does nothing else; a failed creation is followed by that error log and a successful one by `Created S3 bucket: <bucket>`; an existing bucket causes no effect |
| StorageRoutes.FolderPrefix | src/extensions/interactive-storage/routes/upload.js:22-23 | A falsy folder gives the empty prefix, a non-empty string gives its normalised form and a slash, any other truthy value makes the route reject |
| StorageRoutes.UploadPost | src/extensions/interactive-storage/routes/upload.js:15-45 | No files or an empty list gives the 400 reply with no save; otherwise one save per file, in order, to the bucket, under `prefix + time + '-' + originalname`, with the file's buffer and type; the success reply holds one entry per file with the raw folder, and happens exactly when no save rejects; a truthy folder that is not a string rejects the route before any save, and a rejected save rejects the route |
| StorageRoutes.SaveCalls | src/extensions/interactive-storage/routes/upload.js:25-27 | One save per file, in order, with the generated key, the buffer and the mimetype |
| StorageRoutes.UploadInfos | src/extensions/interactive-storage/routes/upload.js:28-34 | One reply entry per file, in order, carrying the original name, the key it was saved under, the raw folder, the size and the type |
| StorageRoutes.BrowseGet | src/extensions/interactive-storage/routes/browse.js:17-30 | A missing folder reads as `''`; the listing is requested once, non-recursively, with the derived prefix, and its items come back unchanged with the bucket and the raw folder as `currentPath`; a failed listing rejects |
| StorageRoutes.InfoGet | src/extensions/interactive-storage/routes/info.js:15-36 | Exactly one stat is made; on success the reply echoes the requested name and copies size, date and etag, with the metadata's `content-type` as the content type, none when metadata or that key is absent; any failure gives the 404 reply |
| StorageRoutes.RemovalErrors | src/extensions/interactive-storage/routes/delete.js:24-29 | There are never more errors than targets |
| StorageRoutes.RemovalErrorsEmpty | src/extensions/interactive-storage/routes/delete.js:29 | The error list is empty if and only if no removal failed with a non-empty message |
| StorageRoutes.RemovalErrorsSound | src/extensions/interactive-storage/routes/delete.js:25-29 | Every error names a target whose removal failed with that (non-empty) message |
| StorageRoutes.RemoveCalls | src/extensions/interactive-storage/routes/delete.js:24-26 | One removal per target, in order, in the configured bucket |
| StorageRoutes.DeleteEnvelope | src/extensions/interactive-storage/routes/delete.js:28-39 | `deletedCount` is targets less errors; `success` holds exactly when there are no errors, which is exactly when `errors` is absent; `errors`, when present, is the non-empty error list |
| StorageRoutes.Delete | src/extensions/interactive-storage/routes/delete.js:13-40 | Targets are `fileNames`, else `[fileName]`, else `[]`; a non-array or empty list gives the 400 reply with no removal; otherwise each target is removed once, 0 ≤ deletedCount ≤ targets, the message counts both, success holds if and only if nothing failed, and `errors` is absent when nothing failed and otherwise lists, in target order, each failed target with its message |
| StorageRoutes.CreateFolderPost | src/extensions/interactive-storage/routes/create-folder.js:15-36 | A falsy path gives the 400 reply with no write; otherwise one empty `text/plain` object is saved at `normalizePath(path) + '/.folder'` and the normalised path is echoed |
| StorageRoutes.ListedNames | src/extensions/interactive-storage/routes/delete-folder.js:40-41 | Each listed object is targeted by its full name, in order |
| StorageRoutes.DeleteFolder | src/extensions/interactive-storage/routes/delete-folder.js:17-56 | A falsy path gives the 400 reply before any listing; the recursive listing uses `normalizePath(path) + '/'`; an empty listing gives the success reply with count 0 and no removal; otherwise every listed object is removed once by full name and the envelope counts and reports failures as in the delete route, `errors` listing each failed name with its message |
| StorageRoutes.FileUnderPrefix | src/extensions/interactive-storage/index.js:113-129 | An object named `prefix + name`, with an accepted name, is listed as a file item called `name` |
| StorageRoutes.UploadNameAccepted | src/extensions/interactive-storage/routes/upload.js:26 | An uploaded file name without a slash gives an object name the listing accepts as a file |
| StorageRoutes.UploadListed | src/extensions/interactive-storage/routes/upload.js:26 | An object uploaded under a prefix is listed under that prefix as the file `time-originalname` |
| StorageRoutes.UploadedFileIsBrowsed | src/extensions/interactive-storage/routes/upload.js:22-26 | A file uploaded to a folder shows up when that same folder is browsed |
| StorageRoutes.FolderMarkerHidden | src/extensions/interactive-storage/routes/create-folder.js:23-24 | Browsing a created folder never shows its `.folder` marker as a file |
| StorageRoutes.FolderMarkerUnderDeletePrefix | src/extensions/interactive-storage/routes/delete-folder.js:25-26 | The marker key of a folder starts with the prefix that deleting that folder lists, so deleting the folder removes its marker |
| BuiltInServices.Names | src/services/index.js:6-13 | The names of a descriptor list, one per descriptor, in order |
| BuiltInServices.NamesAppend | src/services/index.js:6-13 | The names of a concatenation are the concatenated names |
| BuiltInServices.BuiltInNames | src/services/index.js:6-13 | The services are always logger, template-manager and socketio; database is present exactly when `DATABASE_URL` is non-empty, cache when `CACHE_URL` is, s3 when endpoint, access key and secret key all are; the order is logger, template-manager, database, cache, s3, socketio |
| BuiltInServices.BuiltInsTakeContainer | src/services/index.js:7-12 | Every descriptor's first argument is the container token |
| BuiltInServices.BuiltInEnds | src/services/index.js:7-12 | The logger comes first, with `LOG_DIRECTORY` or `<cwd>/logs` and a debug flag true only for the text `true`; socketio comes last, with `PORT` or 3000 |
| Kernel.ResolveArg | src/kernel/index.js:40-44 | The container token gives the container, the connection token gives the connection-callback field, anything else passes through |
| Kernel.ResolveArgs | src/kernel/index.js:40 | Resolution keeps the length and the order of the arguments |
| Kernel.Kernel.constructor | src/kernel/index.js:11-22 | The services are kept, the connection callback is left undefined whatever `onConnection` is, and `<cwd>/src` is created only when missing |
| Kernel.RegistrationPass | src/kernel/index.js:38-51 | A pass registers each descriptor in order with resolved arguments and then compiles once |
| Kernel.Kernel.RegisterServices | src/kernel/index.js:38-51 | The registration loop appends exactly the registration pass to the kernel's log and changes nothing else |
| Kernel.CompileCountAppend | src/kernel/index.js:50 | Compile counts add up over concatenated logs |
| Kernel.NoCompileInRegistrations | src/kernel/index.js:39-48 | Registrations alone hold no compile |
| Kernel.RegistrationPassCompilesOnce | src/kernel/index.js:38-51 | Each registration pass compiles exactly once |
| Kernel.BootCompilesTwice | src/kernel/index.js:29-30 | A boot's two passes compile exactly twice |
| Kernel.BootedCount | src/kernel/index.js:32-35 | The number of services booted: all earlier boots succeeded, and when it stops short of the list the last one booted rejected |
| Kernel.Boots | src/kernel/index.js:32-35 | The first k boots are those of the first k services, in order |
| Kernel.BootLog | src/kernel/index.js:32-35 | The services booted are a prefix of the list, in order, up to and including the first rejecting one |
| Kernel.BootedCountStops | src/kernel/index.js:34 | A rejection at position i after i successes means exactly i+1 services were booted, so no later service boots |
| Kernel.BootedCountAll | src/kernel/index.js:32-35 | Without any rejection every service is booted |
| Kernel.Kernel.BootServices | src/kernel/index.js:32-35 | The boot loop appends the boot log, succeeds exactly when no boot rejects, and otherwise rejects with the first rejection |
| Kernel.Kernel.Boot | src/kernel/index.js:24-36 | The environment file is loaded first, then the console is cleared when asked, then the built-in list is required; the built-ins are registered and compiled, then the caller's services are, and then the built-ins and the services are booted in that order; the boot succeeds exactly when no service boot rejects |
| Kernel.Prelude | src/kernel/index.js:25-27 | The environment file is loaded before the built-in list is required, and the console is cleared exactly when asked |
| Kernel.LoggerBootsFirst | src/kernel/index.js:32 | The logger is always booted and booted first; built-ins boot in list order before every caller service |
| Kernel.BootedCountAtMost | src/kernel/index.js:32-35 | Once the k-th boot rejects, at most k+1 services are booted |
| Kernel.BootedCountAtLeast | src/kernel/index.js:32-35 | When the first m boots succeed, the (m+1)-th service is booted too |
| Kernel.Rejection | src/kernel/index.js:34 | A boot's result seen by the loop: a rejection exactly when the boot failed |
| Kernel.BootWithoutServer | src/kernel/index.js:34 | Booted with no argument, the socket service rejects whatever its files, so no caller service boots and the kernel's boot rejects |
| Kernel.BootWithServer | src/services/socketio/SocketIO.js:20-61 | Given the HTTP server, with the other built-ins succeeding and the socket files loading, the boot reaches the caller's first service |
| HttpServer.CheckPort | src/kernel/HTTPServer.js:7-14 | A port is accepted exactly when it is a number of at least 1, and kept unchanged; otherwise the error is `port must be a positive number` |
| HttpServer.Create | src/kernel/HTTPServer.js:7-14 | Construction fails exactly when the port check does; a new server keeps the port and is not listening |
| HttpServer.ListeningMessage | src/kernel/HTTPServer.js:21 | The start line begins with `HTTP Server listening on port ` |
| HttpServer.HTTPServer.constructor | src/kernel/HTTPServer.js:12-13 | A server with the given port that is not listening and has asked for nothing |
| HttpServer.HTTPServer.Start | src/kernel/HTTPServer.js:16-23 | Start refuses, with the already-started error and no effect, exactly when `isStarted` held; otherwise it logs the port and asks to listen once |
| HttpServer.HTTPServer.Bound | src/kernel/HTTPServer.js:29-31 | After a successful bind, `isStarted` holds |
| HttpServer.StartTwice | src/kernel/HTTPServer.js:16-31 | A second start is refused exactly when the first start's bind succeeded |
| Discovery.ArtifactNameOfJsFile | src/services/events/index.js:48 | A file `x.js` with no other `.js` is named `x` |
| Discovery.FirstInvalid | src/services/events/index.js:45-49 | The first file failing the subclass check, if any |
| Discovery.LoadAll | src/services/events/index.js:45-50 | Loading succeeds exactly when every file passes the subclass check, giving one instance per file in scan order named by its path less the first `.js`; otherwise it fails with `<file> is not a valid <kind>` for the first failing file |
| Discovery.RegisterKeys | src/services/events/index.js:37-40 | After the loop the keys are exactly the earlier keys and the names written |
| Discovery.RegisterLastWins | src/services/events/index.js:38 | A name maps to its last entry: a later duplicate overwrites an earlier one |
| Discovery.RegisterUntouched | src/services/events/index.js:38 | A key no entry names keeps its value |
| Discovery.Named | src/services/events/index.js:37-38 | The name/instance pairs of loaded instances, in order |
| Events.EventService.constructor | src/services/events/index.js:9-14 | An empty event table |
| Events.EventService.Boot | src/services/events/index.js:34-57 | The effects are exactly the `Creating schedules folder at <cwd>/src/events` line and the folder's creation when it is missing, then, on success only, the `Loaded <n> events` line; the boot fails exactly when loading does, leaving the table alone; otherwise every loaded event is written under its name in order |
| Events.EventService.Emit | src/services/events/index.js:17-22 | An unknown name fails with `Event <name> not found` and calls nothing; a known one calls that event's handle once with the payload |
| Events.EventService.EmitAsync | src/services/events/index.js:24-32 | Fails exactly when `emit` would, with the same error and before any timer; otherwise makes the same call raced against a timer of the given timeout or 30000 ms |
| Events.EmitAfterBoot | src/services/events/index.js:17-40 | After a boot, emitting succeeds exactly for names some event carries, and reaches the last event of that name |
| SocketIO.HandlerFiles | src/services/socketio/SocketIO.js:74 | The handler scan keeps exactly the files other than `connection.js` |
| SocketIO.EnsureFolder | src/services/socketio/SocketIO.js:82-105 | A missing folder is created and its sample file installed; an existing one causes nothing |
| SocketIO.GuardCalls | src/services/socketio/SocketIO.js:36-54 | Each resolved guard is invoked and each missing one is skipped with a warning, in declared order |
| SocketIO.GuardCallsInvokeResolved | src/services/socketio/SocketIO.js:36-42 | A guard is invoked if and only if the table resolved it; a missing guard is never fatal |
| SocketIO.SocketIOService.constructor | src/services/socketio/SocketIO.js:13-18 | An empty guard table and no handlers |
| SocketIO.SocketIOService.Resolve | src/services/socketio/SocketIO.js:35-45 | A guard name resolves exactly when it is in the table, to its entry |
| SocketIO.SocketIOService.RegisterGuards | src/services/socketio/SocketIO.js:22-24 | The guard loop writes each guard under its name, in order |
| SocketIO.SocketIOService.Boot | src/services/socketio/SocketIO.js:20-105 | The boot settles as `BootResult` says; a bad guard file stops it before any table change, after only the guards folder's creation and sample install when missing; otherwise the guard table is filled; a bad handler file then stops it, after the handlers folder's creation and sample install too; once every file loads the handlers are the non-connection files in scan order, the connection handler's guards are kept, and the folders and connection handler are created from templates exactly when missing; then, given an HTTP server, it listens on it and logs `Socket.IO is running on ws://localhost:<port>`, and without one it rejects with nothing more done |
| SocketIO.BootResult | src/services/socketio/SocketIO.js:20-61 | The boot succeeds exactly when every guard file and every non-connection handler file passes the subclass check and an HTTP server is given; the first bad guard file, then the first bad handler file, gives the error; without an HTTP server it always fails |
| SocketIO.SocketIOService.OnConnection | src/services/socketio/SocketIO.js:34-58 | Connection guards are invoked in declared order (missing ones warned), then the connection handler runs, then one listener is bound per handler carrying its guards as resolved at that moment |
| SocketIO.SettledBeforeReject | src/services/socketio/SocketIO.js:48-54 | How many guards an event listener awaits: all earlier guards are missing or resolve, and when it stops short the guard at that place rejects |
| SocketIO.OnEvent | src/services/socketio/SocketIO.js:46-56 | The handler is called exactly when no resolved guard rejects, and only after every guard; a rejecting guard ends the listener and the handler is never called |
| BullMQ.TrimmedNonEmpty | src/services/bullmq/index.js:65 | Trimming and dropping empty parts never adds parts |
| BullMQ.TrimmedNonEmptyClean | src/services/bullmq/index.js:65 | Every kept part is non-empty with no surrounding whitespace |
| BullMQ.TrimmedNonEmptyAppend | src/services/bullmq/index.js:65 | The map/filter distributes over concatenation, so input order is kept |
| BullMQ.ActivatedQueuesClean | src/services/bullmq/index.js:63-66 | Every activated name is non-empty and trimmed; an unset `QUEUES` gives no queue |
| BullMQ.ActivatedQueuesConcat | src/services/bullmq/index.js:65 | Names joined by a comma come out in the same order |
| BullMQ.TrimOfTrimmed | src/services/bullmq/index.js:65 | Trimming a trimmed string changes nothing |
| BullMQ.ActivatedQueuesSingle | src/services/bullmq/index.js:63-66 | A single clean name activates exactly that queue |
| BullMQ.QueueSetup | src/services/bullmq/index.js:21-25 | Three effects per activated name: the queue, its events object and the log line |
| BullMQ.QueueSetupSnoc | src/services/bullmq/index.js:21-25 | One more name adds its queue, events object and log line at the end |
| BullMQ.HasWorkerSnoc | src/services/bullmq/index.js:29 | A list has a worker with a given name and queue exactly when its first part or its last worker does |
| BullMQ.WorkerBoundIff | src/services/bullmq/index.js:29-44 | A worker is bound if and only if it names a queue and that queue is in the table |
| BullMQ.NoBindWithoutQueues | src/services/bullmq/index.js:34-37 | With no queue created no worker is ever bound |
| BullMQ.WorkersFolder | src/services/bullmq/index.js:57-61 | The workers folder is created exactly when missing |
| BullMQ.BullMQService.constructor | src/services/bullmq/index.js:10-16 | Empty queue tables |
| BullMQ.BullMQService.CreateQueues | src/services/bullmq/index.js:21-25 | With a logger every name gets one queue and one events object; without `loggfer` the loop rejects after creating the first name's objects |
| BullMQ.BullMQService.BindWorkers | src/services/bullmq/index.js:29-44 | The worker loop's effects are exactly those of skipping or binding each worker in order |
| BullMQ.BullMQService.Boot | src/services/bullmq/index.js:18-55 | With `QUEUES` non-empty and no `loggfer` on the container, the boot rejects after creating only the first queue and binds no worker; otherwise all queues are created and the workers folder is ensured, then a bad worker file fails the boot with exactly those effects, and on success the workers are filtered against the queue table |
| TemplateManager.AppendNewSpec | src/services/template-manager/index.js:19-24 | Adding keys to an insertion-ordered set keeps what was there in place, adds each new key once, and holds exactly the old and the added keys |
| TemplateManager.AppendNewOrder | src/services/template-manager/index.js:55-59 | New keys come out in order of first occurrence |
| TemplateManager.Segments | src/services/template-manager/index.js:57 | The first path segment of each key, in key order |
| TemplateManager.FirstSegmentsSpec | src/services/template-manager/index.js:54-60 | The template list has no duplicates and holds exactly the first segments of the keys |
| TemplateManager.Matching | src/services/template-manager/index.js:63 | The keys kept are exactly those that start with the name as a plain string prefix |
| TemplateManager.DestinationDropsFirstSegment | src/services/template-manager/index.js:41-49 | A file `segment/rest` is installed at `<cwd>/rest` |
| TemplateManager.Writes | src/services/template-manager/index.js:46-51 | One write per file, in key order, of its stored contents at its destination |
| TemplateManager.FirstExisting | src/services/template-manager/index.js:40-44 | No file is found exactly when no destination exists; otherwise the first whose destination exists |
| TemplateManager.PrefixFirstExisting | src/services/template-manager/index.js:40-44 | The first existing destination of a prefix of the files is the first of all the files |
| TemplateManager.FindExisting | src/services/template-manager/index.js:40-44 | The check loop stops at the first existing destination |
| TemplateManager.WriteFiles | src/services/template-manager/index.js:46-51 | The write loop leaves the file system with every write applied in order |
| TemplateManager.TemplateEntries | src/services/template-manager/index.js:19-24 | Each template file is stored under its path less the first `.js`, with its contents |
| TemplateManager.EntryKeys | src/services/template-manager/index.js:23 | The keys written, in order |
| TemplateManager.TemplateManager.constructor | src/services/template-manager/index.js:8-13 | An empty table |
| TemplateManager.TemplateManager.Boot | src/services/template-manager/index.js:15-27 | The table maps each key to its last file's contents, keys keep the place of their first appearance and new keys are appended, and the log line counts nothing (`templates.length` is undefined) |
| TemplateManager.TemplateManager.InstallFile | src/services/template-manager/index.js:29-33 | An unknown key, or one with empty contents, fails with `Template <name> not found` and writes nothing; otherwise exactly the stored contents are written at the location |
| TemplateManager.TemplateManager.GetTemplates | src/services/template-manager/index.js:54-60 | The Set loop returns the distinct first segments in first-appearance order |
| TemplateManager.TemplateManager.GetTemplate | src/services/template-manager/index.js:62-66 | Fails exactly when no key starts with the name; otherwise returns exactly the matching keys |
| TemplateManager.TemplateManager.InstallTemplate | src/services/template-manager/index.js:35-52 | An empty or unknown name fails before touching the files; if any destination exists the install fails naming the first such file and writes nothing; otherwise every file is written |
| TemplateManager.InstallWritesAll | src/services/template-manager/index.js:46-51 | A successful install creates every destination and keeps every other file |
| TemplateManager.InstallWritesContents | src/services/template-manager/index.js:46-51 | A destination no later file shares ends up holding its own template's contents |
| Logger.DateTimestampOfIso | src/services/logger/index.js:49-51 | On an ISO time `<date>T<time>Z` the timestamp is `<date> <time>` |
| Logger.LogFileOfIso | src/services/logger/index.js:34 | On an ISO time `<date>T...` the store appends to `<log directory>/<date>.log`: one file per day |
| Logger.BuildMessage | src/services/logger/index.js:53-55 | The line is the timestamp, ` [`, the upper-cased level, `] ` and the message |
| Logger.LevelUpperCased | src/services/logger/index.js:54 | The bracketed level holds no lower-case ASCII letter |
| Logger.FirstSuccess | src/services/logger/index.js:30-47 | The first append among the allowed attempts that succeeds: none exactly when all fail |
| Logger.FirstSuccessIs | src/services/logger/index.js:33-35 | A success at attempt k after k failures is the first success |
| Logger.Logger.constructor | src/services/logger/index.js:16-23 | The retry counter starts at 0 |
| Logger.Logger.Boot | src/services/logger/index.js:25-28 | The log directory exists afterwards and nothing else changes |
| Logger.Logger.Store | src/services/logger/index.js:30-47 | A counter above 10 refuses at once with no attempt; otherwise a success at attempt k appends the line to the day's file, resets the counter and took k+1 attempts; when all `11 - counter` attempts fail the call fails with the counter left at 11, so later calls refuse at once, and the day's file keeps its lines or is created empty; other files are untouched |
| Logger.Logger.Retry | src/services/logger/index.js:31-46 | The retry loop: it ends with the line appended and the counter at 0 at the first success, or fails with the counter at 11; the directory and an empty file are created after a failed attempt |
| Logger.Logger.Attempt | src/services/logger/index.js:32-43 | One attempt counts itself; a success appends the line and resets the counter; a failure creates the directory and an empty day file where missing |
| Logger.Logger.Write | src/services/logger/index.js:57-80 | Each level prints its line, debug only when enabled, and always stores it: a counter above 10 leaves the files alone and the store's rejection unhandled; when some allowed attempt succeeds the day's file is its earlier lines plus this one and the counter is 0; when all fail the rejection is unhandled, the counter is 11 and the day's file keeps its lines or is created empty; other files are untouched and only the log directory may be created |
| EnvManager.Lines | src/utils/EnvManager.js:30-32 | One `KEY=value` line per entry, in order |
| EnvManager.SerializeStep | src/utils/EnvManager.js:30-32 | The text splits into the first entry's line and the lines of the rest |
| EnvManager.SerializeLines | src/utils/EnvManager.js:30-32 | Splitting the text at newlines gives one line per entry, in declaration order, and the empty piece after the last newline |
| EnvManager.EntryLineParses | src/utils/EnvManager.js:31 | Splitting a line at its first `=` gives back the key and the printed value |
| EnvManager.SerializeParses | src/utils/EnvManager.js:30-32 | For readable entries the text has exactly one line per entry plus a final empty piece, and each line splits back into its key and printed value |
| EnvManager.PlainEntryReadable | src/utils/EnvManager.js:31 | An entry with a plain key and a newline-free value has a single-line, readable line |
| EnvManager.DefaultsPlain | src/utils/EnvManager.js:15-28 | Every default has a plain key and a newline-free value |
| EnvManager.DefaultsReadable | src/utils/EnvManager.js:14-33 | Every default has a single-line entry with no `=` in its key; with `SerializeParses` this makes the default file exactly twelve lines, one per default in declaration order, each splitting back into its key and printed value |
| EnvManager.PortLine | src/utils/EnvManager.js:17-31 | The port default prints as `PORT=3000` |
| EnvManager.DefaultValuesPrinted | src/utils/EnvManager.js:16-31 | Booleans print as `true`/`false`, the port in decimal, empty strings as `KEY=`, and the log directory as `./logs` |
| EnvManager.CreateEnvFile | src/utils/EnvManager.js:9-12 | An existing file is kept unless `overwrite` is set; otherwise the default text is written; no other file changes |
| EnvManager.Load | src/utils/EnvManager.js:4-7 | The file always exists before the settings are read from it, and an existing file is never overwritten |
| AuthUser.Hex | src/templates/auth/src/db-models/hooks/User.js:7-25 | Two hexadecimal digits per byte |
| AuthUser.HexDigitRoundTrip | src/templates/auth/src/db-models/hooks/User.js:7 | A digit reads back as its value |
| AuthUser.HexRoundTrip | src/templates/auth/src/db-models/hooks/User.js:7-21 | The hexadecimal text decodes back to its bytes |
| AuthUser.HexInjective | src/templates/auth/src/db-models/hooks/User.js:20-21 | Two byte strings have the same hexadecimal text exactly when they are equal |
| AuthUser.HashPasswordMatches | src/templates/auth/src/db-models/hooks/User.js:20-21 | Under one salt two passwords have the same stored hash exactly when the key derivation gives them the same key |
| AuthUser.BeforeCreate | src/templates/auth/src/db-models/hooks/User.js:5-8 | The stored password is the hexadecimal key derived with `ENCRYPTION_SALT` or `''`, 1000 rounds, 64 bytes, sha512 |
| AuthUser.IsValidPassword | src/templates/auth/src/db-models/hooks/User.js:15-22 | The failures come in the source's order, each with its error text: a missing password first, then an unset salt (both throw while hashing), then a missing record; otherwise the check holds exactly when the stored hash equals the candidate's hash under the salt |
| AuthUser.CreateThenVerify | src/templates/auth/src/db-models/hooks/User.js:5-22 | With the salt set, the created password checks, and another one checks exactly when the key derivation gives it the same bytes |
| AuthUser.UnsetSaltRejects | src/templates/auth/src/db-models/hooks/User.js:6-20 | With the salt unset a user is still created under the empty salt, but every check fails |
| AuthUser.SessionCache.constructor | src/templates/auth/src/db-models/hooks/User.js:26 | An empty cache |
| AuthUser.SessionCache.Get | src/services/cache/index.js:23-25 | A key reads back its value exactly when it is stored and its expiry instant, if any, has not come |
| AuthUser.SessionCache.GenerateAuthToken | src/templates/auth/src/db-models/hooks/User.js:24-32 | The user JSON is stored at `auth:<hex token>` expiring 604800 seconds after `now`, and the 64-digit token returned; a failed set changes nothing, a failed expire leaves the entry stored without expiry; no other key changes |
| AuthUser.SessionCache.Del | src/templates/auth/src/db-models/hooks/User.js:38 | Deletion removes the key and its expiry, or fails changing nothing |
| AuthUser.SessionCache.RemoveAuthToken | src/templates/auth/src/db-models/hooks/User.js:34-45 | Deletes `auth:<token>`, and rejects when the cache call fails |
| AuthUser.GenerateThenRemove | src/templates/auth/src/db-models/hooks/User.js:27-38 | Generating a token and removing it leaves no entry and no expiry for it and every other key as it was |
| AuthUser.SessionLifetime | src/templates/auth/src/db-models/hooks/User.js:27-30 | A session made at `now` reads back its user JSON exactly until seven days have passed |
| AuthHandlers.Socket.constructor | src/templates/auth/src/handlers/auth/login.js:16-17 | A socket with no user, no token and nothing emitted |
| AuthHandlers.Socket.Emit | src/templates/auth/src/handlers/auth/register.js:24 | Emitting appends the event and payload and changes nothing else |
| AuthHandlers.UserTable.constructor | src/templates/auth/src/handlers/auth/register.js:14 | An empty user table |
| AuthHandlers.UserTable.Create | src/templates/auth/src/handlers/auth/register.js:16-20 | The create succeeds exactly when the e-mail is free and the database does not fail, adding the row with the hashed password; otherwise nothing changes |
| AuthHandlers.RegisterCheck | src/templates/auth/src/handlers/auth/register.js:6-12 | The checks pass exactly when the e-mail is present and valid and the password is present with an `isLength` count of at least 6; otherwise the first failing check, in fixed order, gives its message |
| AuthHandlers.IsLengthCount | src/templates/auth/src/handlers/auth/register.js:12 | `isLength`'s count never exceeds the number of characters |
| AuthHandlers.IsLengthCountPlain | src/templates/auth/src/handlers/auth/register.js:12 | Without U+FE0E/U+FE0F every character counts |
| AuthHandlers.IsLengthCountSelector | src/templates/auth/src/handlers/auth/register.js:12 | A trailing U+FE0E or U+FE0F adds nothing to the count |
| AuthHandlers.SelectorPasswordTooShort | src/templates/auth/src/handlers/auth/register.js:12 | `abcde` followed by U+FE0F is refused as shorter than 6 characters |
| AuthHandlers.EmailChecksFirst | src/templates/auth/src/handlers/auth/register.js:6-12 | A bad e-mail gets an e-mail error whatever the password |
| AuthHandlers.Register | src/templates/auth/src/handlers/auth/register.js:3-25 | When the lookup after a successful create rejects, the handler rejects with nothing emitted and the new row kept; otherwise exactly one `auth.register` is emitted: the first failing check's error with the table unchanged, or `Email already exists` with the table unchanged when the e-mail is taken or the database fails, or the created user's public fields after its row is added with the hashed password |
| AuthHandlers.Login | src/templates/auth/src/handlers/auth/login.js:6-20 | A missing e-mail or a failing database makes the lookup by e-mail reject; for a found user, a failing reread of the password by primary key rejects before any hash is compared; both reject with the socket and the cache unchanged and nothing emitted; an unknown e-mail gets `User not found`; a missing password or an unset salt makes the password check reject; a wrong password gets `Invalid password`; on each of these paths the socket's user and token and the whole cache are unchanged and nothing else is emitted. A correct password sets the socket's user and token, stores the session expiring seven days after `now` and emits the user with the token; a failed token creation rejects with nothing emitted, the socket unchanged and the cache as the failed creation left it |
| AuthHandlers.StartSession | src/templates/auth/src/handlers/auth/login.js:14-19 | On a stored token the socket keeps the user and token before the one emit of user and token, and the cache gains exactly that entry, expiring seven days after `now`; on a failed set nothing changes; on a failed expire the entry is stored without expiry; on both failures nothing is emitted and the socket is unchanged |
| AuthHandlers.Logout | src/templates/auth/src/handlers/auth/logout.js:3-18 | A rejecting session read, once a user and a token are present, rejects the handler with nothing emitted and the cache unchanged; otherwise exactly one `auth.logout`: `Not authenticated` without a user, a token or a live (stored, unexpired, non-empty) session entry at `now`, leaving the cache alone; otherwise the key and its expiry are deleted and success emitted, or the deletion's error with the cache unchanged; the socket keeps its user and token |
| AuthHandlers.LogoutTwice | src/templates/auth/src/handlers/auth/logout.js:4-14 | A second logout on the same socket reports `Not authenticated` at the cache check |
| AuthHandlers.LogoutAfter | src/templates/auth/src/handlers/auth/logout.js:8-10 | After a login at `now`, a logout succeeds exactly when seven days have not passed (and the stored user JSON is not empty); later the token, still on the socket, no longer authenticates |

## Left out

- File enumeration, `require` and `instanceof` are left out. The scanned files
  arrive as a list of relative paths, each with the outcome of the subclass
  check and what its class declares.
- The object store, the cache, the database, the dependency container and
  the socket server are not modelled as libraries. Their calls are recorded
  as effects, and their outcomes are parameters. The container's
  `register`/`compile` are a log, and what `get` returns is not modelled.
- Logger lines that go through the container's logger are not traced,
  except where a contract speaks of them. This covers the debug and info
  lines of the kernel, the socket, event and queue services, and the
  storage routes' lines: the upload count, the info and delete errors, and
  the folder creation and deletion lines.
- Concurrency is not modelled:
  - `Promise.all` in the upload and delete routes becomes a sequential fold
    over per-file outcomes.
  - The un-awaited bucket check in `load` is modelled up to its first await.
  - The timeout race of `emitAsync` is not modelled beyond its timeout value.
  - Un-awaited connection guards are modelled only by their call order.
- Time is a parameter:
  - `Date.now()` in the upload route is a function from the file's index to
    a number.
  - `new Date().toISOString()` in the logger is one ISO string per call, so
    the model assumes the day does not change within one `store`.
  - The cache's clock is a number of seconds, `now`. An expiry is kept as
    the instant at which the key goes; a key whose instant has come reads
    as absent.
- Colours, `console.log` and the screen clear are left out. The logger's
  console is a list of uncoloured lines. The same coloured string is what
  `store` appends to the day's file; in the model the stored lines are
  uncoloured too.
- The key derivation, `randomBytes` and `validator.isEmail` are opaque
  parameters.
- A `char` is a Unicode scalar value, not a UTF-16 code unit:
  - lone surrogates cannot be represented;
  - a character outside the Basic Multilingual Plane counts as 1, where
    JavaScript's `length` and `slice` count 2. `isLength` subtracts
    surrogate pairs, so it counts 1 as the model does; it also skips
    U+FE0E and U+FE0F, which `IsLengthCount` models.
- RegisterServices: a caller's service descriptor always carries its
  argument list. In the source, a descriptor written without one makes
  `args.map` throw a TypeError at src/kernel/index.js:40, after the earlier
  descriptors were registered and before `compile`; the model cannot
  express such a descriptor.
- AuthHandlers.Register: the e-mail and password are strings or missing.
  A truthy value of another type, such as a number in the socket payload,
  makes `validator.isEmpty` or `isLength` throw, and the handler rejects
  with nothing emitted; the model does not express such a payload, so its
  "exactly one `auth.register`" holds only for string or missing fields.
- `isEmpty` is taken as a test for the empty string.
- Request-body values are a small JavaScript value type. Floats and NaN are
  left out, and numbers are integers.
- Object-key order puts integer-like keys first in JavaScript. The template
  table's key order is modelled as plain insertion order.
- Table lookups treat every name that was never written as absent. This
  covers `Events.EventService.Emit`, `Events.EventService.EmitAsync`,
  `SocketIO.SocketIOService.Resolve`, `BullMQ.BullMQService.BindWorkers` and
  `TemplateManager.TemplateManager.InstallFile`. In the source these tables
  are plain objects, so a lookup also finds names inherited from
  `Object.prototype`:
  - `emit("toString")` throws a TypeError instead of `Event toString not found`;
  - a guard named `constructor` is called instead of skipped;
  - a worker whose queue is `constructor` is bound;
  - `installFile("constructor", …)` writes a function's text.
- `path.join` normalisation of `..` and `.` segments is not modelled.
  Joins are concatenation with `/`.
- InstallTemplate: file-system writes never fail in the model.
  - `writeFileSync` into a folder that does not exist throws, after the
    earlier files of the template were already written.
  - A template whose keys have several segments, such as
    `auth/src/handlers/auth/login`, needs its folders to exist first.
  - So the model's successful install describes only the case where every
    destination's folder exists.
  - `InstallFile` and the logger's `mkdirSync` calls, whose parent folder
    may be missing, are modelled the same way.
- CollapseSlashes: its own contract gives only the length bound and
  emptiness. That each maximal run of slashes becomes exactly one `/` is
  stated by `CollapseRun`, `CollapseAppend` and `CollapseLeadingRun`.
- dotenv parsing of the environment file is not modelled.
  `EnvManager.Load` returns the text the settings are read from.
- The download route, `#listFiles`, `#getFileStat` and the listing-stream
  wiring are left out. They stream bytes or wrap callbacks. The listings
  arrive as input sequences.
- Worker.js, Event.js, Handler.js and Guard.js are not part of this model.
  The only thing the model takes from them is that an instance is named by
  its file.
- The HTTP server handed to the socket service is represented by the port
  it is bound to. The socket server's `listen` is the effect `Listen`.
- JSON serialisation of a user is a function parameter of the login
  handler.
- The text of runtime errors is kept as constant strings rather than
  derived. This covers a missing password, a missing record and an unset
  salt in `isValidPassword`, and a missing e-mail in the login lookup. The
  socket server's error on an undefined HTTP server is a parameter.
- `Logger.Logger.Write` models the five level methods `log`, `info`, `warn`,
  `error` and `debug` as one method with a level argument. They differ only
  in the level name and in `debug`'s print condition.
- `Logger.Logger.Write` returns the store's rejection as `unhandled`.
  Nothing awaits the store, so the rejection is unhandled, and by default
  Node ends the process on an unhandled rejection. The model does not
  capture that the process ends.
- `Logger.Logger.Store`'s success clause speaks of the day's file and of
  the other files. It does not state which attempt created the directory.
  `Retry` states that.

## Findings

| source | as written | input that shows it | evidently intended | confidence | as-written member | corrected member |
|---|---|---|---|---|---|---|
| src/kernel/index.js:34 | The boot loop calls every service's `boot()` with no argument. So the socket service's `boot({ httpServer } = {})` gets no HTTP server, and `this.io.listen(httpServer)` at src/services/socketio/SocketIO.js:60 throws after the guards and handlers are loaded | Any boot: socketio is always the last built-in, so it rejects, none of the caller's services boots, and `Kernel.boot` rejects | The kernel hands the socket service an HTTP server. The socket service listens on it, and the boot goes on to the caller's services | not executed | Kernel.BootWithoutServer | Kernel.BootWithServer |
