# Verified model of the notes server

A Dafny 4.11 model of the server's stores and protocols, with proofs. `dafny verify dfyconfig.toml`
checks everything.

The model has five parts.

- **Tagged store** (`Names`, `Tables`, `TagLoop`, `Transactions`, `Queries`, `Store`, `Listing`,
  `Search`, `Isolation`, `ReadYourWrites`, `Handlers`). Users, folders, notes, files, tags and links are maps in one database
  value. `Tables` defines the SQL statements and the transactions built from them; the class in
  `Store` runs them in place with rollback. On top: the exact meaning of every transaction, the
  relational invariant, isolation of users over whole runs, what every listing
  shows, what a request shows of the one before, and the handlers' folder checks.
- **Rows and blobs** (`Blob`, `Protocol`, `Losses`, `Endings`, `Mime`). The file system keeps a record of every state it passes
  through, so that a crash can be placed anywhere. `Protocol` runs uploads, replacements, deletions
  and both startup sweeps, directory by directory and file by file, in their smallest steps, on any
  number of items at once. `Losses` says exactly which blobs can be lost, `Endings` how undisturbed
  handlers and sweeps end.
- **Image rotation** (`Geometry`, `Raster`, `Gif`, `GifRotate`). Pixel loops on buffers, and a
  reference player for animated GIFs after sections 18, 20 and 23 of the GIF89a specification.
- **Timed tables** (`RateLimit`, `Ceremonies`, `Sessions`). Each is related to the history of calls,
  where nothing is ever collected.
- **Accounts and migrations** (`Registration`, `Migrations`).

Functions named after a statement or transaction specify it; the classes' methods do the same work
step by step and are proved equal to them; lemmas say what that amounts to.

## Assumptions

- Transactions are atomic and one at a time, as the store's single connection makes them
  (internal/store/store.go:44). Random ids are fresh, not empty, and free of dots, slashes and NUL;
  extensions come from the fixed table.
- The limiter and the ceremony table read a clock that does not go back, once per locked call; both start
  empty with the process. A request looks its session up and touches it at one reading of the clock; whether its user is
  found and the touch succeeds is a parameter.
- Handlers on one item are serialised, and so are passkey requests of one user.
- A call of the WebAuthn library answers yes, with a credential id, or no.
- SQLite's NOCASE compares ASCII letters without case (`Names.Fold`).

## Where the code is weaker than its comments

- `updateNote` is documented to take `[null]` as "unfile" (internal/httpapi/notes_handlers.go:141),
  and the page sends null for it (internal/web/static/app.js:520). Null decodes to a nil pointer, which
  keeps the folder, and the empty string is refused: no update unfiles a note
  (`Handlers.Server.UpdateNote`). `updateFile` unfiles on the empty string and on nothing else, while
  the page sends null there, too (internal/web/static/files.js:273, `Handlers.Server.UpdateFile`).
- The tag loop's map of seen names is case-sensitive and the lookup is not, so a list with "Red" and
  "red" fails as a whole (`TagLoop.SetTagsExact`, `TagLoop.RedAndRedClash`).
- `normalizeTag` is not idempotent; a byte replacement of a file changes its links, or fails, when a
  stored name ends in a blank (`Names.NormalizeTwice`, `TagLoop.WriteBack`), which 31 letters, a blank
  and a letter bring about (`TagLoop.LongNameIsLost`).
- `rotRect` turns an empty rectangle into one with pixels (`Geometry.EmptyRectGrows`). A half turn
  would not record a canvas larger than the screen (`GifRotate.ScreenExactly`), but `rotateGIF` only
  sees what the decoder accepts, and that has every frame on the screen
  (`GifRotate.RotatedFilePlaysTurned`).
- The orphan sweep runs beside the server: an upload that begins between the snapshot and the
  listing of its user's directory can finish and lose its blob (`Losses.RacedUploadCanLoseBlob`);
  `Losses.LossExactly` says who is in danger and for how long. The sweep's key has no extension, so a stale blob
  with another extension stays for as long as its row (`Blob.SweepExactly`).
- A replacement by other bytes under the same file name that dies, or whose row update fails, after
  its blob is in place leaves the row with the old size and digest until the next successful one
  (`Losses.CutOffReplacementTears`; `Protocol.CrashSafety` has both directions). The update fails
  on tag names that clash: a rotation sent together with the tags "Red" and "red" turns the bytes and
  then answers with an error (`Handlers.Server.UpdateFile`, `Handlers.TornByClash`).
- The comment on `UpdateFile` says that a save resets the rotation; the statement stores what it is
  given (`Tables.Merged`), and only the handlers reset it.

## Model

| member | source | states |
|---|---|---|
| `Geometry.RotPointBijective` | internal/httpapi/rotate.go:69-79 | The point map takes the canvas onto the turned canvas one to one, and the opposite turn undoes it |
| `Geometry.RotPointComposes` | internal/httpapi/rotate.go:69-79 | Turning by a and then b is turning by (a + b) mod 360, points and dimensions alike |
| `Geometry.RotRectExact` | internal/httpapi/rotate.go:99-104 | The rotated bounds hold exactly the rotated pixels if and only if the rectangle is not empty; a non-empty one stays on the turned canvas and non-empty |
| `Geometry.RotRectComposes` | internal/httpapi/rotate.go:99-104 | Turning a non-empty rectangle by a and then b is turning it by their sum |
| `Geometry.EmptyRectGrows` | internal/httpapi/rotate.go:99-104 | The failing family: a rectangle without width and height comes back from every turn with two by two pixels |
| `Raster.Rotate` | internal/httpapi/rotate.go:82-97 | For a source of any colour model and offset, the nested loops compute the turned picture of its converted colours, and write every destination pixel exactly once; the conversion is whatever Set applies |
| `Raster.RotatedClockwise` | internal/httpapi/rotate.go:67-79 | The direction: after 90 degrees pixel (i, j) is pixel (j, h - 1 - i) of the w by h picture, after 180 (w - 1 - i, h - 1 - j), after 270 (w - 1 - j, i), with the dimensions to match |
| `Raster.NotRotated` | internal/httpapi/rotate.go:78 | Any other number of degrees turns nothing |
| `Raster.SeenAnywhere` | internal/httpapi/rotate.go:83-93 | The source's place does not matter: moved, it is seen as the same picture |
| `Raster.SeenAtOrigin` | internal/httpapi/rotate.go:83-93 | An image at the origin is seen as its colours, converted |
| `Raster.RotatedComposes` | internal/httpapi/rotate.go:82-97 | Pictures: rotation is an action of the four quarter turns |
| `Raster.FullCircle` | internal/httpapi/rotate.go:82-97 | Two turns that add up to a full circle restore the picture |
| `Raster.FourTurns` | internal/httpapi/rotate.go:82-97 | The same turn four times, by 90 degrees for one, restores the picture |
| `GifRotation.TurnablePlaysAlike` | internal/httpapi/rotate.go:118-127 | A rotated frame draws, and leaves behind, at each rotated point what the frame does at the point |
| `GifRotation.PlaysAlikeExactly` | internal/httpapi/rotate.go:118-127 | A frame survives rotation if and only if it has pixels, or its first colour is see-through and it is not cleared to background |
| `GifRotation.RotationCommutesWithPlaying` | internal/httpapi/rotate.go:106-132 | Any number of frames with any transparency and disposal: while frame k is up the rotated animation shows the rotation of what the original shows |
| `GifRotation.TurnedToComposes` | internal/httpapi/rotate.go:118-127 | Rotating a frame with pixels by a and then b is rotating it by their sum: bounds, pixels, colour table and disposal |
| `GifRotation.AllTurnedCompose` | internal/httpapi/rotate.go:118-128 | Rotations of a whole animation add up |
| `GifRotation.FourTurnsRestore` | internal/httpapi/rotate.go:106-132 | The same turn four times, each applied to the result of the one before, restores an animation |
| `GifRotate.TurnImage` | internal/httpapi/rotate.go:118-127 | The loop over one paletted frame yields the rotated frame: bounds, every pixel, colour table and disposal |
| `GifRotate.CanvasIsLeast` | internal/httpapi/rotate.go:109-117 | The computed canvas is the smallest that holds the screen and every frame |
| `GifRotate.ScreenExactly` | internal/httpapi/rotate.go:129-131 | The recorded screen is the rotated canvas if and only if the turn is by 90 or 270 degrees or no frame sticks out of the screen |
| `GifRotate.GIF.Canvas` | internal/httpapi/rotate.go:109-117 | The first loop computes that canvas |
| `GifRotate.GIF.TurnImages` | internal/httpapi/rotate.go:118-128 | The second loop replaces every frame in place by its rotation |
| `GifRotate.GIF.RecordScreen` | internal/httpapi/rotate.go:129-131 | Screen size after the turn; frames stay |
| `GifRotate.GIF.Rotate` | internal/httpapi/rotate.go:108-132 | All frames are rotated on the least canvas; count, delays and disposal codes stay |
| `GifRotate.RotatedFilePlaysTurned` | internal/httpapi/rotate.go:106-132 | End to end for decodable files: the rotated file has the turned screen size and plays the rotation of the original |
| `GifPlayer.ShownByHistory` | internal/httpapi/rotate.go:106-107 | What preserving disposal is measured by: a point shows the last solid pixel left there, or the background if it was cleared since, frames that restore counting only while they are up |
| `GifRotate.RotatedFilePlaysClockwise` | internal/httpapi/rotate.go:106-132 | What a viewer sees of the rotated file while frame k is up is, pixel by pixel, what the original shows, turned clockwise |
| `GifRotate.RotatedFilesAddUp` | internal/httpapi/rotate.go:108-132 | A file whose frames all have pixels, rotated twice and read back as written in between, has the frames and the screen of the file rotated once by the sum |
| `Names.TrimSpaceBytes` | internal/store/notes.go:262-270 | The two loops compute the trimmed text |
| `Names.TrimmedIs` | internal/store/notes.go:262-270 | Trimming removes only blanks, all of them at both ends, and leaves trimmed text alone |
| `Names.NormalizedIsNormal` | internal/store/notes.go:254-260 | What names normalisation can give: at most 32 bytes, no blank in front, and behind only if cut |
| `Names.FixedIs` | internal/store/notes.go:254-260 | Fixed points of normalisation: at most 32 bytes and trimmed |
| `Names.NormalizeTwice` | internal/store/notes.go:254-260 | Two applications reach a fixed point; one does if and only if the cut leaves no blank at the end |
| `Names.FoldExactly` | internal/store/migrations/002_notes.sql:21-26 | NOCASE: two names are the same if and only if they differ at most in the case of ASCII letters |
| `Names.NormalizedExactly` | internal/store/notes.go:254-270 | The first 32 bytes of a tag name, 64 of a folder name, once spaces and tabs are off both ends |
| `TagLoop.AddTagExact` | internal/store/notes.go:224-241 | Linking one name succeeds if and only if no tag of that name, up to ASCII case, is linked to the item yet |
| `TagLoop.AddTagsExact` | internal/store/notes.go:217-243 | The loop from any point on: success if and only if the seen and the remaining names are free of case clashes, and what is linked then |
| `TagLoop.ClearLinksIs` | internal/store/notes.go:212-216 | Removing an item's links takes all of them and no others, and keeps the invariant |
| `TagLoop.SetTagsExact` | internal/store/notes.go:211-244 | Replacing tags succeeds if and only if no two distinct non-empty normalised names are equal up to case; then the item is linked to exactly these names; tags keep id and spelling, other items keep their links |
| `TagLoop.RedAndRedClash` | internal/store/notes.go:217-241 | The list "Red", "red" is refused by every store for every item |
| `TagLoop.NotWantedAgain` | internal/store/notes.go:254-260 | A stored name cut off after a blank cannot be asked for again by any list of stored names |
| `TagLoop.WriteBack` | internal/httpapi/files_handlers.go:366-411 | Reading an item's tags and writing them back succeeds and leaves all links alone if and only if every stored name is a fixed point of normalisation |
| `TagLoop.LongNameIsLost` | internal/httpapi/files_handlers.go:366-411 | From every store: an item tagged with 31 letters, a blank and a letter loses its links, or the write fails, when its tags are read and written back |
| `Transactions.CreateItemExact` | internal/store/notes.go:34-49 | Creation: exactly when it succeeds; on success only the row and its tags are new, on failure nothing changed; invariant kept |
| `Transactions.UpdateItemExact` | internal/store/files.go:139-163 | Update: exactly when it is not found, fails or succeeds; which columns and links change; failure changes nothing; invariant kept |
| `Transactions.DeleteItemExact` | internal/store/notes.go:148-171 | Deletion removes the row, its links and exactly the user's tags without a link; other users' tags stay; invariant kept |
| `Transactions.CreateFolderExact` | internal/store/folders.go:19-35 | Exactly when a folder is created, when the answer is a conflict and when the request is refused; failure changes nothing; invariant kept |
| `Transactions.RenameFolderExact` | internal/store/folders.go:60-77 | Exactly when a folder is renamed, when it is not found and when the name conflicts; failure changes nothing; invariant kept |
| `Transactions.DeleteFolderExact` | internal/store/folders.go:80-87 | Deleting a folder unfiles exactly its items and changes nothing else; invariant kept |
| `Store.Store.Normalize` | internal/store/notes.go:254-260 | Trims, then cuts at 32 bytes, in place |
| `Store.Store.SelectTag` | internal/store/notes.go:225-228 | Finds the tag of that name up to case, if there is one |
| `Store.Store.LinkTag` | internal/store/notes.go:224-241 | Finds or makes the tag and links it, or fails on the primary key |
| `Store.Store.SetTagsTx` | internal/store/notes.go:211-244 | The loop over the names computes the tag replacement, or reports its failure |
| `Store.Store.CreateNote` | internal/store/notes.go:34-49 | Row and tags, or neither; invariant kept |
| `Store.Store.CreateFile` | internal/store/files.go:34-51 | Row and tags, or neither; invariant kept |
| `Store.Store.Update` | internal/store/notes.go:123-145 | Row and tags, or neither; no names leave the tags alone; invariant kept |
| `Store.Store.Delete` | internal/store/notes.go:148-171 | Row, links and left-over tags together; invariant kept |
| `Store.Store.NewFolder` | internal/store/folders.go:19-35 | The folder row, or nothing; invariant kept |
| `Store.Store.Rename` | internal/store/folders.go:60-77 | The new name, or nothing; invariant kept |
| `Store.Store.DropFolder` | internal/store/folders.go:80-87 | The folder row and the foreign keys' SET NULL; invariant kept |
| `UserViews.ListItemsInView` | internal/store/notes.go:60-101 | Listings are computed from the user's own rows alone, though the tag and folder subqueries carry no user condition |
| `UserViews.ListFoldersInView` | internal/store/folders.go:38-57 | Folder counts are computed from the user's own rows alone, though they carry no user condition |
| `UserViews.ListTagsInView` | internal/store/folders.go:96-115 | Tag counts are computed from the user's own rows alone |
| `UserViews.SetTagsInView` | internal/store/notes.go:211-244 | Tag replacement acts on the user's own rows as if there were no others |
| `UserViews.CreateItemInView` | internal/store/files.go:34-51 | Creation acts on the user's own rows as if there were no others |
| `UserViews.UpdateItemInView` | internal/store/files.go:139-163 | Update acts on the user's own rows as if there were no others |
| `UserViews.DeleteItemInView` | internal/store/notes.go:147-171 | Deletion and pruning act on the user's own rows as if there were no others |
| `UserViews.RenameFolderInView` | internal/store/folders.go:60-77 | Renaming acts on the user's own rows as if there were no others |
| `UserViews.DeleteFolderInView` | internal/store/folders.go:80-87 | Folder deletion and its SET NULL act on the user's own rows as if there were no others |
| `Isolation.RunConfined` | internal/store/notes.go:34-171 | A store call keeps the invariant, uses only its fresh ids and changes no row of another user |
| `Isolation.StepKeeps` | internal/httpapi/notes_handlers.go:127-182 | Every allowed request keeps the invariant, and folders that somebody was told of stay theirs for as long as they exist |
| `Isolation.RunInView` | internal/store/files.go:54-188 | Every call's answer and effect on the user's rows are those it would have without anybody else's rows |
| `Isolation.Noninterference` | internal/store/notes.go:60-101 | Over every interleaved run of many users' requests, each user's answers and final rows are those of the run without the others' requests |
| `Isolation.RunsKeepInvariant` | internal/store/migrations/002_notes.sql:3-34 | The relational invariant holds after every legal run: links join own items and tags, folders belong to the owner, names are unique up to case |
| `Isolation.RunsKeepRelations` | internal/store/migrations/002_notes.sql:3-34 | The same, spelled out: owners, folders, links, and names unique up to the case of letters |
| `Isolation.AnswersAre` | internal/httpapi/notes_handlers.go:44-61 | A user gets one answer per request, in order, each from the store that the requests before it have left |
| `ReadYourWrites.CreatedIsRead` | internal/store/notes.go:34-49 | What was created is read back, with the tags asked for up to case; nobody reads anything else differently |
| `ReadYourWrites.UpdatedIsRead` | internal/store/files.go:139-163 | What was updated is read back with the new columns, and the new tags if given; nobody reads anything else differently |
| `ReadYourWrites.DeletedIsGone` | internal/store/notes.go:148-171 | What was deleted is gone; nobody reads anything else differently |
| `ReadYourWrites.MadeFolderIsShown` | internal/store/folders.go:19-35 | Exactly when a folder is made, in terms of the folder list, which then shows it, empty |
| `ReadYourWrites.RenamedFolderIsShown` | internal/store/folders.go:60-77 | Exactly when a folder is renamed, in terms of the folder list, which then shows the new name |
| `ReadYourWrites.DroppedFolderIsGone` | internal/store/folders.go:80-87 | A dropped folder is listed no more; what was in it is read unfiled, the rest as before |
| `ReadYourWrites.AsksChangeNothing` | internal/httpapi/notes_handlers.go:204-223 | Questions change nothing; a folder is the user's own if and only if its folder list shows it |
| `Listing.NamesInAreTagList` | internal/store/notes.go:189-206 | Distributing the rows of the one query gives every item exactly its own names, each once, in name order |
| `Listing.TagListUnique` | internal/store/notes.go:189-192 | There is only one such list |
| `Listing.NameLeqExactly` | internal/store/notes.go:189-192 | Name order: the first is a start of the second up to case, or has the smaller byte where they first differ |
| `Listing.Index` | internal/store/notes.go:183-188 | The map finds exactly the listed items by id |
| `Listing.Distribute` | internal/store/notes.go:198-206 | The row loop gives each item its names in row order |
| `Listing.AttachTags` | internal/store/notes.go:179-208 | One query fills every item's tags with exactly its own names, in name order |
| `Listing.CountsConserve` | internal/store/folders.go:38-57 | Folder counts plus unfiled items are the user's notes plus files |
| `Listing.DeleteFolderConserves` | internal/store/folders.go:79-87 | Deleting a folder moves exactly its count to the unfiled items; other counts stay |
| `Listing.TagFilterExact` | internal/store/notes.go:69-73 | The unscoped tag filter matches exactly the items that are shown with the tag, up to case |
| `Listing.TagCountIsListed` | internal/store/folders.go:96-101 | The count beside a tag is the number of notes and files that filtering by it lists |
| `Listing.FolderCountIsListed` | internal/store/folders.go:39-43 | The count beside a folder is the number of notes and files that it lists |
| `Search.AllListed` | internal/store/notes.go:60-101 | Without a filter a listing shows exactly the user's rows of the table with their tags; with one, some of these |
| `Search.FiltersAddUp` | internal/store/files.go:54-79 | A listing shows what each of its filters alone shows |
| `Search.FolderListed` | internal/store/notes.go:63-68 | A folder filter shows the items in it, "none" those in no folder |
| `Search.FoldersPartition` | internal/store/notes.go:63-68 | Every item is listed under "none" or in exactly one folder of the user |
| `Search.UnfiledListed` | internal/store/files.go:62-67 | The notes and files listed under "none" are the unfiled ones, in number, too |
| `Search.TagListed` | internal/store/notes.go:69-73 | A tag filter shows the items that show a tag of that name, up to case |
| `Search.KindListed` | internal/store/files.go:58-61 | The kind filter shows the files of that kind |
| `Search.SearchListed` | internal/store/notes.go:74-79 | A search shows the items whose title or name, or whose folder's name, can be read to hold the text, letter by letter up to case |
| `Search.ReadAsListed` | internal/store/notes.go:104-120 | Reading an item answers what the listing shows of it, or that there is none |
| `Search.FoldersListed` | internal/store/folders.go:38-57 | The folder list: the user's folders, each with the number of notes and files it lists |
| `Search.TagsListed` | internal/store/folders.go:96-115 | The tag list: the user's tags, each with the number of notes and files it lists |
| `Handlers.Server.CreateNote` | internal/httpapi/notes_handlers.go:63-103 | Exactly when the request is refused, fails or succeeds; the row is in the folder that was named, or in none, with its tags, and stays behind when only the body cannot be written; invariant kept |
| `Handlers.Server.UploadFile` | internal/httpapi/files_handlers.go:202-221 | Any folder may be named; exactly when the request is refused, fails or succeeds; the row, its folder and its tags, which stay behind when only the bytes cannot be written |
| `Handlers.Server.UpdateNote` | internal/httpapi/notes_handlers.go:127-182 | Exactly when the request is refused, fails or succeeds; a named folder becomes the note's, otherwise it keeps its own; the other columns; exactly when the new body stays beside the old row; a filed note stays filed whatever is sent; invariant kept |
| `Handlers.Server.Save` | internal/httpapi/notes_handlers.go:177-180 | What an update does once the folder is checked: it fails exactly on clashing names, and then changes nothing |
| `Handlers.Server.Bake` | internal/httpapi/files_handlers.go:312-325 | Exactly when a rotation is baked, refused or fails, and every column afterwards |
| `Handlers.Server.UpdateFile` | internal/httpapi/files_handlers.go:271-332 | Exactly when the request succeeds; a named folder becomes the file's, the empty string and nothing else unfiles it, otherwise it keeps its own; the other columns; exactly when the turned bytes stay beside the old row; invariant kept |
| `Handlers.Server.Edited` | internal/httpapi/files_handlers.go:290-325 | Exactly when an edit is refused for the file, its rotation, its folder or its type, and the row it would store |
| `Handlers.ForeignIsUnlisted` | internal/store/folders.go:122-136 | A folder is refused if and only if the user's folder list does not show it |
| `Handlers.Server.ReplaceFileBytes` | internal/httpapi/files_handlers.go:362-418 | Succeeds and keeps all links if and only if every stored tag name is a fixed point of normalisation; exactly when the new bytes stay beside the old row; kind, name, folder and creation time stay |
| `Handlers.ReadBack` | internal/store/files.go:129-133 | A read gives the stored names, in the one order they can have |
| `Handlers.WrittenBack` | internal/store/files.go:157-161 | Writing them back, or no list if there are none, leaves the links alone if and only if all are fixed points |
| `Handlers.TornByClash` | internal/httpapi/files_handlers.go:319-329 | A handler that has put bytes under the row's own name leaves the item torn if and only if its tag names clash and the bytes are not the old ones |
| `Handlers.UpdateIsAllowed` | internal/httpapi/notes_handlers.go:128-178 | Whatever runs between a handler's read, check and update, the folder it writes is the user's own or gone |
| `RateLimit.RateLimiter.GcLocked` | internal/httpapi/ratelimit.go:57-67 | Collection drops exactly the expired windows, if it is due |
| `RateLimit.RateLimiter.Allow` | internal/httpapi/ratelimit.go:37-54 | The locked call decides and updates the table as specified |
| `RateLimit.RunTracks` | internal/httpapi/ratelimit.go:37-67 | How a key's windows add up over any run with other keys and collections in between |
| `RateLimit.RateBound` | internal/httpapi/ratelimit.go:36-67 | In every half-open interval of k windows at most (k + 1) times the limit calls of one key are let through (times one for a limit below one) |
| `RateLimit.GrantedCounts` | internal/httpapi/ratelimit.go:37-54 | What the rate bound counts: the calls of the key in the interval that were let through |
| `RateLimit.SlowClientsPass` | internal/httpapi/ratelimit.go:37-54 | A key that asked less often than the limit within the last window length is let through, unless the cap refuses it |
| `RateLimit.CollectsWhenDue` | internal/httpapi/ratelimit.go:57-67 | Collection is due once a minute and when the table is half full; it then takes exactly the expired windows of other keys, and otherwise none |
| `RateLimit.RefusedExactly` | internal/httpapi/ratelimit.go:44-48 | The cap refuses a key if and only if it has no unexpired window and maxKeys unexpired windows are tracked |
| `RateLimit.TableBounded` | internal/httpapi/ratelimit.go:37-67 | The table never holds more than maxKeys windows |
| `RateLimit.RunsAgree` | internal/httpapi/ratelimit.go:37-67 | While the cap refuses nobody, the table is the uncapped one without some expired windows |
| `RateLimit.RefinesSimple` | internal/httpapi/ratelimit.go:37-67 | While the cap refuses nobody, every answer is that of a limiter without cap or collection |
| `Ceremonies.CeremonyTable.GcLocked` | internal/webauthn/service.go:105-117 | Collection drops exactly the expired ceremonies, if it is due |
| `Ceremonies.CeremonyTable.Begin` | internal/webauthn/service.go:80-91 | Put: collect, then add the entry with its expiry |
| `Ceremonies.CeremonyTable.Finish` | internal/webauthn/service.go:93-103 | Take: the entry is gone whatever the answer |
| `Ceremonies.HistoryReflected` | internal/webauthn/service.go:80-117 | The table holds exactly the open ceremonies of the history, but for expired ones |
| `Ceremonies.TakeExact` | internal/webauthn/service.go:93-103 | Over any run with restarts, take succeeds if and only if the id was put with that kind, is not past expiry, and since then nobody has asked for it and the server was not restarted; it returns what was put |
| `Ceremonies.EntriesAreRecent` | internal/webauthn/service.go:80-117 | After a put no entry is older than two minutes, and the last collection is less than one minute ago |
| `Sessions.SessionStore.IssueSession` | internal/httpapi/auth_handlers.go:160-179 | A new session expires one lifetime from now |
| `Sessions.SessionStore.Auth` | internal/httpapi/server.go:166-192 | Check, find the user, then slide the expiry; a failed touch is ignored |
| `Sessions.SessionStore.HandleLogout` | internal/httpapi/auth_handlers.go:181-189 | Behind the check, the session is deleted unless that fails |
| `Sessions.SessionStore.DeleteExpired` | internal/store/sessions.go:59-66 | The cleanup removes exactly the expired sessions and counts them |
| `Sessions.HistoryReflected` | internal/store/sessions.go:29-66 | The table against the history of a session's issue, touches and logouts |
| `Sessions.AuthenticatedExactly` | internal/httpapi/server.go:166-192 | A request is authenticated if and only if its user is found and the session was issued, not logged out, and every gap between touches, up to now, was strictly shorter than the lifetime |
| `Sessions.FoundAsIssued` | internal/store/sessions.go:29-51 | A session that is found has the user and creation time issued under its id, and was last seen at its last touch |
| `Sessions.CleanupInvisible` | internal/store/sessions.go:59-66 | Running the cleanup at any moments never changes an answer |
| `Sessions.CleanupExactly` | internal/store/sessions.go:59-66 | The cleanup keeps exactly the sessions that a lookup would find, unchanged |
| `Accounts.AccountStore.ConsumeInviteCode` | internal/store/store.go:170-187 | An unused code becomes used; otherwise nothing changes |
| `Accounts.AccountStore.RegisterWithPasskey` | internal/store/store.go:146-168 | Code, user and passkey together, or none of them |
| `Accounts.AccountStore.CreateInviteCode` | internal/store/invite.go:17-31 | A new unused code |
| `Accounts.AccountStore.CreatePasskey` | internal/store/passkeys.go:26-40 | A new credential of an existing user, or nothing |
| `Accounts.AccountStore.HandlePasskeyDelete` | internal/httpapi/auth_handlers.go:273-292 | Count, then delete, without other passkey requests in between |
| `Accounts.RegisterExact` | internal/store/store.go:146-168 | Exactly when registration succeeds; then one code is used up and one user with one passkey is new, otherwise nothing changed |
| `Accounts.InsertKeyExactly` | internal/store/passkeys.go:26-40 | A passkey is stored if and only if its credential is new and its user exists |
| `Accounts.MintExactly` | internal/store/invite.go:17-49 | Minting makes a new code usable and leaves every other as it was, used or not |
| `Accounts.NameTakenExactly` | internal/webauthn/service.go:134-136 | A name is taken if and only if some user's differs from it at most in the case of letters |
| `Accounts.DropKeyKeeps` | internal/httpapi/auth_handlers.go:273-292 | Deleting passkeys leaves every user with at least one |
| `Accounts.DropKeyExactly` | internal/httpapi/auth_handlers.go:273-292 | A passkey is deleted if and only if it is the user's and the user has another; then exactly it goes; with at most one the answer is a conflict |
| `Registration.Service.Begin` | internal/webauthn/service.go:124-157 | Checks in order, the library's refusal included, and the ceremony that is put |
| `Registration.Service.Finish` | internal/webauthn/service.go:161-175 | The ceremony is spent first, then registration as a whole |
| `Registration.Service.FinishAddPasskey` | internal/webauthn/service.go:203-226 | The ceremony is spent first, then the passkey |
| `Registration.StepConserves` | internal/store/store.go:146-187 | Every event keeps used codes minus users, and uses up a code exactly when it creates an account with it |
| `Registration.RegistrationConserves` | internal/store/store.go:143-199 | Over any run, restarts included, used invite codes minus users stays constant |
| `Registration.OneAccountPerCode` | internal/webauthn/service.go:124-175 | However many ceremonies are begun with a code, it creates exactly one account if it was used up in the run and none otherwise |
| `Registration.EveryUserHasKey` | internal/httpapi/auth_handlers.go:273-292 | With serialised handlers every user has a passkey after any run, restarts included |
| `Registration.CeremoniesWereBegun` | internal/webauthn/service.go:137-156 | Every register ceremony in the table was begun with its name, code and user id, after the last restart |
| `Registration.CreatedAsBegun` | internal/webauthn/service.go:161-175 | A created account has the id, name and code fixed when its ceremony began, after the last restart |
| `Registration.KeyIsExchanged` | internal/httpapi/auth_handlers.go:220-292 | Begin, finish, drop: a user adds a passkey and drops the old one |
| `Registration.NewcomerRegisters` | internal/webauthn/service.go:124-175 | Mint, begin, finish: with a new code a new name is registered |
| `Registration.NamesStayUnique` | internal/store/store.go:189-200 | After any run no two users have names that differ at most in case |
| `Registration.FinishAddExactly` | internal/webauthn/service.go:203-226 | Exactly when a begun passkey ceremony adds the passkey, and to whom |
| `Registration.FinishExactly` | internal/webauthn/service.go:161-175 | Exactly when a begun registration finishes, and the account, passkey and code afterwards; the ceremony is spent whatever the outcome |
| `Registration.BeginExactly` | internal/webauthn/service.go:124-157 | Exactly when a registration begins, and the ceremony that can then be taken |
| `Registration.ValidNameExactly` | internal/webauthn/service.go:389-401 | User names: 3 to 32 letters, digits, dashes, underscores and dots |
| `Migrations.Migrator.Migrate` | internal/store/store.go:56-98 | The loop applies the entries newer than the version it read, up to the first that fails |
| `Migrations.RanReaches` | internal/store/store.go:68-96 | A start applies exactly the missing migrations before the place where it stops |
| `Migrations.ExactlyOnce` | internal/store/store.go:56-98 | After any starts of older and newer releases, failures and crashes: a duplicate-free prefix of the list was applied, and the recorded version is the last applied one |
| `Migrations.CompletedStartsAreFinal` | internal/store/store.go:73-75 | After a completed start, later starts of that release or an older one change nothing |
| `BlobNames.StemOfBlob` | internal/blob/blob.go:159 | Stripping the extension of a blob name gives back the id |
| `BlobNames.StemOfDotless` | internal/blob/blob.go:159 | A name without a dot stays as it is |
| `BlobNames.StemOfTemp` | internal/blob/blob.go:169 | A temporary file carries no id |
| `BlobNames.BlobNameInjective` | internal/httpapi/files_handlers.go:197 | Different ids or extensions give different names |
| `Mime.ExtTellsType` | internal/httpapi/files_handlers.go:444-462 | Accepted types have extensions of their own, none the one for unknown types |
| `Mime.ExtsOfTypes` | internal/httpapi/files_handlers.go:33-41 | Blobs are named for the accepted types, replaced ones for the image types |
| `BlobNames.KeepKeyInjective` | internal/store/files.go:211 | Keep-set keys are different for different rows |
| `Blob.FileSystem.WriteAtomic` | internal/blob/blob.go:167-188 | Whatever call fails, removing the temporary file included: the destination holds the new data, or nothing changed but for a temporary file, and exactly when that stays and what it holds; at every crash point the destination is old or complete |
| `Blob.FileSystem.SweepOrphans` | internal/blob/blob.go:145-165 | The walk removes exactly the orphans it gets to and can remove; a complete one with no failing removal leaves the swept disk |
| `Blob.FillKeepSet` | internal/store/files.go:203-212 | The row loop collects exactly the rows' keys |
| `Blob.OrphanExactly` | internal/blob/blob.go:158-162 | A file is an orphan if and only if its name carries no id of a row of that user |
| `Blob.SweepExactly` | internal/blob/blob.go:145-165 | A blob of any extension is kept if and only if its row is in the snapshot; temporary files go; everything else stays |
| `Blob.FileSystem.FillTemp` | internal/blob/blob.go:169-186 | Up to the rename nothing but the temporary file changes, at every crash point |
| `Blob.SweepLeavesOnlyLive` | internal/blob/blob.go:145-165 | With nothing else running, only files with a live id are left, and a second sweep changes nothing |
| `Protocol.UploadKeeps` | internal/httpapi/files_handlers.go:211-218 | The row of a fresh upload keeps the invariant before its blob is there |
| `Protocol.RenameKeeps` | internal/blob/blob.go:187 | Putting the complete blob in place keeps the invariant |
| `Protocol.CommitKeeps` | internal/httpapi/files_handlers.go:406-411 | The row update of a replacement keeps the invariant |
| `Protocol.FailRowKeeps` | internal/httpapi/files_handlers.go:406-409 | A row update that fails after the blob is in place keeps the invariant, with the item torn exactly if the bytes differ |
| `Protocol.RemoveOldKeeps` | internal/httpapi/files_handlers.go:412-416 | Removing the blob of the old extension keeps the invariant |
| `Protocol.DeleteKeeps` | internal/httpapi/files_handlers.go:432-438 | Deleting the row first keeps the invariant |
| `Protocol.CrashKeeps` | cmd/notes/main.go:88-104 | A crash at any point keeps the invariant |
| `Protocol.ListUserKeeps` | internal/blob/blob.go:146-149 | Listing a directory keeps the invariant and brings nobody within reach |
| `Protocol.VisitKeeps` | internal/blob/blob.go:146-164 | Each visit of the walk, next to running handlers, keeps the invariant |
| `Protocol.StepKeeps` | internal/httpapi/files_handlers.go:362-440 | Every step of every handler, of the sweep and of a crash keeps the invariant |
| `Protocol.CrashSafety` | internal/httpapi/files_handlers.go:395-418 | After every run with crashes anywhere: every blob under a final name is the complete payload of one write to it; every finished row names an existing blob unless it was uploaded within reach of a running sweep; and a finished row describes its blob if and only if the item is not torn, that is, the blob last written under its name, by a replacement cut off before its row, does not hold other bytes |
| `Protocol.SnapshotDecides` | internal/blob/blob.go:158-162 | Of the blobs it visits, the sweep removes exactly those whose items are not in the snapshot |
| `Losses.UploadRuns` | internal/httpapi/files_handlers.go:142-221 | An undisturbed upload ends with the row and the complete blob, everything else as before |
| `Losses.CutOffReplacementTears` | internal/httpapi/files_handlers.go:402-411 | A replacement that a handler accepts, by other bytes under the same name, cut off by a crash before its row, leaves a finished row that does not describe its blob |
| `Losses.RowAfterBytes` | internal/httpapi/files_handlers.go:402-411 | The row update after a same-name replacement: if it fails, the item is torn exactly if the bytes differ |
| `Losses.SafeStays` | cmd/notes/main.go:88-104 | Once no running sweep can reach it, a finished row keeps its blob through every step but its own deletion |
| `Losses.SweepTakes` | internal/blob/blob.go:146-163 | A walk that goes on removes what it has still to come by and does not know from the snapshot |
| `Losses.ExposedCanLose` | internal/blob/blob.go:145-165 | The run that loses it: the walk goes on, if need be after a replacement, by any bytes, under an image name that is still listed |
| `Losses.LossExactly` | internal/blob/blob.go:145-165 | A finished row with its blob can lose it without being deleted if and only if a running sweep does not have it in its snapshot and may still visit its blob or a file under a name that a replacement of it may take: for a note its own, for a file also any image extension; all others keep it for ever |
| `Losses.RacedUploadCanLoseBlob` | cmd/notes/main.go:88-104 | A new upload right after the snapshot can finish and then lose its blob |
| `Endings.DeleteRuns` | internal/httpapi/files_handlers.go:432-438 | A deletion takes the row and its blob, and nothing else; the row alone if the blob cannot be removed |
| `Endings.ReplacementRuns` | internal/httpapi/files_handlers.go:395-418 | A replacement: the row describes the new bytes, these are there under the new name and under no other, everything else as before |
| `Endings.GivenUpRuns` | internal/blob/blob.go:169-186 | A write that fails and can remove its temporary file leaves the disk alone |
| `Endings.SweepRuns` | cmd/notes/main.go:88-104 | A complete sweep takes exactly the files of its kind that carry no row's key |
| `Endings.RestartCleans` | cmd/notes/main.go:88-104 | Whatever was going on when the process died, after the next start's sweep every file of the kind carries the id of a row of its user, and every finished row that named a blob still does |

## Left out

- Handlers.Server.UpdateFile: whether the stored bytes could be turned and written, and their new size
  and digest, are parameters.
- Handlers.Server.CreateNote: title trimming, body size and UTF-8 checks are single branches and are
  taken as done; the same holds for name cleaning and content sniffing in the file handlers.
- Handlers.Server.ReplaceFileBytes: the new extension comes in as part of the file name; the table of
  MIME types is not modelled.
- Raster.Rotate: the conversion of the source's colours to 8-bit RGBA is a parameter, and the codecs
  are not modelled.
- GifRotate.TurnImage: palette lookup is modelled only for colours in the table, of which it takes the
  first; colours that differ in value but not on screen count as different.
- Queries.ListItems: listings are maps; only the order of tag names is modelled.
- Names.Fold: SQLite's treatment of NUL bytes inside compared text is not modelled.
- Protocol.CrashSafety: a crash is the death of the process. The code does not sync files, so power
  loss can undo a rename; the model says nothing about it. That an item uploaded within reach of a
  sweep has its blob is left to `Losses.LossExactly`. Two handlers at once on one item are not
  modelled: the code promises nothing there.
- Losses.LossExactly: which bytes pass as an image is not modelled; the extension of a replacement is
  restricted as the handlers restrict it, its bytes are not, and the runs promised work with any.
- Protocol.ListUserKeeps: a directory is listed in one step; files that come or go while the system
  reads it are as if they came or went before or after.
- Protocol.Row: a row holds the data it describes in place of its size and SHA-256 digest.
- Isolation.Noninterference: the set of users is fixed during a run; notes and files of users who are
  deleted by hand are not modelled.
- Accounts.AccountStore.HandlePasskeyDelete: two deletions at once could remove the last two passkeys;
  the handlers are taken as serialised.
- RateLimit.RateLimiter.Allow: the derivation of the client key from the request is not modelled.
- Registration.Service.Begin: what the library begins is one opaque value, or none.
- `CreateUser`: used by tests only.
- `FinishLogin`: beyond spending its ceremony it only updates a signature counter.
- The SQL engine, its write-ahead log and driver; HTTP, JSON, cookies, origin checks and logging; the
  browser code; configuration.
