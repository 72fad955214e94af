# Versions view of the Camlistore FUSE file system, in Dafny

This project models the read-only "versions" view that the Camlistore FUSE
file system mounts. The view has four kinds of node:

- **`versionsDir`** (`Versions.VersionsDir`) is the top directory.
  - It lists the root permanodes under their `camliRoot` attribute.
    - A root that is not described, or whose attribute is empty, is not listed.
    - Roots that share a name share one entry, that of the last one (`Versions.RefreshEntries`).
  - It also lists the importer root permanodes under `importer-<name>`, after their `camliImportRoot` attribute, with every `:` and `/` turned into `-`.
    - The same rules apply.
    - An importer entry replaces a root entry with the same text.
  - It refreshes that list from the graph-query service at most once a minute after a full refresh.
    - After a failed search, empty searches or a failed describe, `lastQuery` is unchanged, so the next call queries again (`Versions.RefreshResets`, `Versions.RefreshRecordsTime`).
  - It memoises one `roDirV` per entry it has looked up.
- **`roDirV`** (`Rover.RoDirV`) is a directory made of one permanode's `camliPath:<name>` attributes.
  - Each entry becomes a symlink, a sub-directory or a versioned file, in that order of precedence.
  - Entries that cannot be resolved are skipped.
- **`roFileLikeDir`** (`Rover.RoFileLikeDir`) is a file shown as a directory.
  - It holds the versions made by its `camliContent` claims, each named by the rendered claim date.
    - Claims after the first one that makes no version get none (`Rover.Leading`, `Rover.FileLikePopulateCommits`).
    - Claims whose dates render the same share one entry, that of the last one (`Rover.VersionsLastWins`).
- **`roFileVersion`** (`Rover.RoFileVersion`) is one version of a file, a read-only leaf.
  - It covers attribute arithmetic, the open-flag check, and mutation calls that always fail.

Structure of the model:

- **The graph-query service.** It is a `Graph.Client`: three functions giving the service's answer (`Answered(v)` or `Failed`) to a describe, a claims query and a search by attribute.
  - It is a parameter of every operation that queries, so two calls may see different answers.
  - Every querying operation also returns `issued`, the requests it sent, in order.
- **Helpers from outside this code.** Ref parsing, `Sum64`, `isDir`, `time.Time.String`, `isWriteFlags`, the process start time, and the user and group ids are fields of the `CamliFs.CamliFileSystem` object.
  - The renderer of claim dates is not assumed to be injective.
- **Time.** Time is an integer: nanoseconds since Go's zero time, which is `0`. The current time is a parameter `now`.
- **Node state.** Each node's fields are what the Go struct holds.
  - A nil `children` map is `None`.
  - The only mutable field of `roDirV` and `roFileLikeDir` is `children`, which `populate` sets once.
  - `versionsDir` has three mutable fields: `lastQuery` and `m`, which `condRefresh` reassigns (pkg/fs/versions.go:129, 189), and `children`, which `condRefresh` and `Lookup` update in place.
  - `versionsDir.m` starts nil in Go, and reading a nil map acts like reading an empty one. The model starts it as `map[]`; the invariant `Valid` says `m` is empty while `children` is nil.
- **Value form of each operation.** The behaviour of each stateful operation is also stated as a function on values: `Rover.DirVPopulate`, `Rover.FileLikePopulate` and `Versions.Refresh`.
  - Each method is proved to change the node's state exactly as that function says.
  - The lemmas state what those functions mean.

Three behaviours of the code shape the model:

- `roFileLikeDir.populate` allocates `children` before its claim loop. A loop that stops early therefore leaves the versions made so far committed, and the node counts as populated from then on.
- A failed describe inside that loop reports success.
- In `roDirV.populate`, a failed describe also reports success but commits nothing.

## Model

| member | source | states |
|---|---|---|
| Base.Int64ToUint64 | pkg/fs/rover.go:459 | Go's `uint64(size)` of a signed size: unchanged when non-negative, wrapped by 2^64 when negative |
| Graph.AttrGet | pkg/fs/rover.go:121 | `Attr.Get`: the first value of a key when it has one; "" when the key has no value or its first value is empty |
| Rover.DirentInode | pkg/fs/rover.go:173-182 | a listed child's inode is its permanode's `Sum64` for a `roDirV` or `roFileVersion`, and 0 for a `roFileLikeDir` |
| Rover.ListChildren | pkg/fs/rover.go:172-193 | the listing loop gives one entry per child: names distinct, every child listed, each with its inode |
| Rover.ChildShape | pkg/fs/rover.go:116-159 | child classification, both directions of each case: undescribed is skipped; a symlink target wins; then a directory-shaped permanode; then a `camliContent` naming a described blob of type "file"; anything else is skipped |
| Rover.PathNamesSpec | pkg/fs/rover.go:110-114 | a name is drawn from the attributes exactly when `camliPath:<name>` is an attribute key |
| Rover.PathEntriesKeys | pkg/fs/rover.go:109-120 | a directory lists `name` exactly when `camliPath:<name>` has a value, its first value is described, and that child classifies; the entry is that child |
| Rover.OtherAttributesIgnored | pkg/fs/rover.go:110-113 | changing an attribute that is not a `camliPath:` key leaves the listing unchanged |
| Rover.PathKeyEntry | pkg/fs/rover.go:110-116 | each attribute key yields at most the one name after the prefix, and a `camliPath:` key with a value yields the child its first value classifies as |
| Rover.EntriesComplete | pkg/fs/rover.go:108-161 | a children map holding, under every name, the child its `camliPath:` entry makes is exactly the listing |
| Rover.DirVPopulate | pkg/fs/rover.go:82-163 | `roDirV.populate` on an unpopulated node sends exactly one depth-3 describe of the node's permanode; it commits entries exactly when the answer describes the permanode, and it reports failure exactly when the answer does not |
| Rover.DirVPopulateFailures | pkg/fs/rover.go:98-105 | a failed describe reports success and commits nothing; an undescribed self permanode reports failure and commits nothing; committing implies success |
| Rover.NewNode | pkg/fs/rover.go:123-155 | a child node is made fresh, with the construction-time fields classification chose, sharing the parent's file system, and unpopulated |
| Rover.RoDirV.constructor | pkg/fs/rover.go:56-62 | `newRODirV`: the given fields, with `children` nil |
| Rover.RoDirV.Attr | pkg/fs/rover.go:72-79 | mode exactly `os.ModeDir` plus 0500: a directory with owner read and execute only, no write bits, inode from its permanode, and the process's uid and gid |
| Rover.RoDirV.Populate | pkg/fs/rover.go:82-163 | once populated, it succeeds, sends nothing and changes nothing; otherwise it sends one depth-3 describe, reports what `DirVPopulate` says, and commits exactly its entries as fresh, unpopulated children |
| Rover.RoDirV.AddEntries | pkg/fs/rover.go:108-161 | the attribute loop, over the keys in any order, yields children that are exactly the listing, each fresh and unpopulated |
| Rover.RoDirV.ReadDir | pkg/fs/rover.go:165-194 | EIO exactly when `populate` fails; otherwise one entry per child, each exactly once, with its inode |
| Rover.RoDirV.Lookup | pkg/fs/rover.go:196-210 | EIO when `populate` fails; otherwise the child of that name, or ENOENT when there is none |
| Rover.StepFor | pkg/fs/rover.go:276-301 | a claim that makes a version gives one keyed by its rendered date, under the parent's permanode, not a symlink |
| Rover.StepForCases | pkg/fs/rover.go:276-300 | each stop cause, both directions: an invalid ref exactly when the value does not parse; a failed describe exactly when it parses and the describe fails; not described exactly when the answer lacks the value; a version's content and size are those of the claim's described blob |
| Rover.ClaimOutcome | pkg/fs/rover.go:276-301 | the loop's step at claim i, by branch: each stop cause, or exactly the version built from the described blob's ref and size under the rendered date |
| Rover.Steps | pkg/fs/rover.go:275-303 | one step per claim |
| Rover.StepsAt | pkg/fs/rover.go:275-303 | the loop treats each claim on its own: the step at position j is the step of claim j |
| Rover.Leading | pkg/fs/rover.go:275-292 | the loop stops at the first claim that makes no version: every earlier claim made one |
| Rover.VersionsOf | pkg/fs/rover.go:293-301 | the assignment `children[name] = ...`: a version made by the last step is present under its name |
| Rover.VersionsAtMostOnePerStep | pkg/fs/rover.go:293-301 | the loop adds at most one version per claim |
| Rover.VersionsFromSteps | pkg/fs/rover.go:293-301 | every listed version is exactly the version some claim made under that name |
| Rover.ClaimDescribesLength | pkg/fs/rover.go:280-284 | the loop sends one describe per processed claim |
| Rover.VersionsLastWins | pkg/fs/rover.go:293-301 | a name is listed exactly when some processed claim makes a version of that name, and its version is the one from the last such claim |
| Rover.VersionsOfClaims | pkg/fs/rover.go:289-301 | every listed version is keyed by a claim's rendered date, is that claim's version, and belongs to the parent's permanode |
| Rover.FileLikePopulate | pkg/fs/rover.go:256-305 | `roFileLikeDir.populate` on an unpopulated node sends the `camliContent` claims query first; it commits nothing exactly when that query fails, and then it reports failure and sends nothing more; otherwise it commits at most one version per claim and sends at most one describe per claim |
| Rover.FileLikePopulateCommits | pkg/fs/rover.go:274-292 | once the claims query answers, the node is populated with the versions made before the loop stopped, whether or not it reports success |
| Rover.FileLikePopulateOk | pkg/fs/rover.go:268-304 | success exactly when the claims query answers and the loop either finishes or stops at a failed describe |
| Rover.RoFileLikeDir.constructor | pkg/fs/rover.go:230-236 | `newROFileLikeDir` and the literals in `roDirV.populate`: the given fields, with `children` nil |
| Rover.RoFileLikeDir.Attr | pkg/fs/rover.go:246-253 | mode exactly `os.ModeDir` plus 0500: a directory with owner read and execute only, no write bits, inode from its permanode |
| Rover.RoFileLikeDir.Populate | pkg/fs/rover.go:256-305 | once populated, it succeeds, sends nothing and changes nothing; otherwise one claims query, then what `FileLikePopulate` says: success, committed versions and every request sent |
| Rover.RoFileLikeDir.AddVersions | pkg/fs/rover.go:274-303 | the claim loop, committing as it goes: success exactly when it finishes or stops at a failed describe; children are the versions of the claims before the stop; requests are the describes of those claims and of the stopping one |
| Rover.RoFileLikeDir.ReadDir | pkg/fs/rover.go:307-336 | EIO exactly when `populate` fails; otherwise one entry per version, each exactly once, with its inode |
| Rover.RoFileLikeDir.Lookup | pkg/fs/rover.go:338-352 | EIO when `populate` fails; otherwise the version of that name, or ENOENT when there is none |
| Rover.RoFileVersion.constructor | pkg/fs/rover.go:294-301 | a version holds the given content, size and times |
| Rover.RoFileVersion.ModTime | pkg/fs/rover.go:478-485 | the modification time, or the server start time when it is zero; never zero when the start time is not |
| Rover.RoFileVersion.AccessTime | pkg/fs/rover.go:468-476 | the access time, or the modification time (with its own fallback) when it is zero |
| Rover.RoFileVersion.Attr | pkg/fs/rover.go:438-466 | mode exactly 0400, with `os.ModeSymlink` added for a symlink; size as the unsigned conversion; no blocks for a non-positive size, else size/512+1; times with their fallbacks; ctime and crtime the server start time |
| Rover.BlocksCoverSize | pkg/fs/rover.go:444-447 | for a positive size, the blocks cover it with at most 512 bytes of slack |
| Rover.RoFileVersion.Open | pkg/fs/rover.go:379-404 | write flags give EPERM; a reader that cannot be made gives EIO; otherwise a handle on the content whose response flags have only the direct-I/O bit cleared |
| Rover.RoFileVersion.Removexattr | pkg/fs/rover.go:422-424 | always EPERM |
| Rover.RoFileVersion.Setxattr | pkg/fs/rover.go:426-428 | always EPERM |
| Rover.RoFileVersion.Fsync | pkg/fs/rover.go:487-490 | always succeeds |
| Versions.ReplaceChar | pkg/fs/versions.go:182-183 | `strings.Replace(s, c, d, -1)`: same length, every `c` turned into `d`, everything else kept |
| Versions.ImporterName | pkg/fs/versions.go:182-184 | the importer entry name is `importer-` followed by the name with each `:` and `/` turned into `-`, character by character |
| Versions.ImporterNameIsComponent | pkg/fs/versions.go:182-184 | an importer entry name contains no `:` and no `/` |
| Versions.ImporterNamesCollide | pkg/fs/versions.go:182-184 | any two names of the same length that agree after each `:` and `/` is turned into `-` give the same importer entry |
| Versions.ImporterNamesCollideExample | pkg/fs/versions.go:182-184 | `a:b`, `a/b` and `a-b` give the same importer entry, `importer-a-b` |
| Versions.EntryName | pkg/fs/versions.go:155-185 | a permanode gives an entry name only when it is described and has a permanode part |
| Versions.Named | pkg/fs/versions.go:153-187 | a naming loop only adds entries: every entry present before stays present |
| Versions.NamedFromPermanodes | pkg/fs/versions.go:156-184 | every entry a naming loop adds is bound to one of the permanodes it visited |
| Versions.EntryNameSpec | pkg/fs/versions.go:176-185 | a permanode gives an entry name exactly when it is described, has a permanode part and a non-empty root (import root) attribute; for an importer it is the sanitised importer name |
| Versions.LastNaming | pkg/fs/versions.go:155-165 | the index of the last permanode that gives a name, with none later giving it |
| Versions.NamedLastWins | pkg/fs/versions.go:176-187 | after a naming loop, an entry is present exactly when it was before or some permanode names it, and it maps to the last such permanode |
| Versions.NamedSnoc | pkg/fs/versions.go:155-164 | one iteration of a naming loop writes the permanode under its entry name when it has one |
| Versions.Refresh | pkg/fs/versions.go:108-191 | `condRefresh`: the only error is EIO; it sends nothing exactly when it is within a minute of `lastQuery`, and otherwise sends the two searches, then possibly one describe; `lastQuery` stays the same or becomes `now`, and becomes `now` only when there is no error |
| Versions.RefreshWithinWindow | pkg/fs/versions.go:109-111 | within one minute of the last full refresh nothing is sent and nothing changes |
| Versions.RefreshSearchFails | pkg/fs/versions.go:116-127 | a failed search is EIO and leaves `m`, `children` and `lastQuery` unchanged; both searches are sent |
| Versions.RefreshResets | pkg/fs/versions.go:129-151 | once the searches answer, `m` is emptied and `children` allocated; if both searches are empty (success) or the describe fails (EIO), the directory stays empty, no child is evicted and `lastQuery` is unchanged |
| Versions.RefreshRecordsTime | pkg/fs/versions.go:189 | `lastQuery` becomes `now` exactly on the full success path, which reports no error; otherwise it is unchanged |
| Versions.RefreshEntries | pkg/fs/versions.go:153-187 | after a full refresh, a name is listed exactly when a root or an importer root names it; an importer wins over a root of the same name; each maps to the last permanode naming it |
| Versions.RefreshEvicts | pkg/fs/versions.go:154-173 | after a full refresh, exactly the memoised children whose name a current root gives survive, unchanged |
| Versions.RefreshKeepsValid | pkg/fs/versions.go:129-132 | every refresh keeps the invariant that there are no entries while `children` is nil |
| Versions.RefreshOncePerMinute | pkg/fs/versions.go:109-111 | a second refresh less than a minute after a full one sends nothing and changes nothing, whatever the service would answer |
| Versions.ListNames | pkg/fs/versions.go:74-77 | the listing loop gives one entry per name of `m`, each exactly once, inode 0 |
| Versions.CollectRefs | pkg/fs/versions.go:137-142 | the describe asks for the root permanodes, then the importer root permanodes |
| Versions.VersionsDir.constructor | pkg/fs/versions.go:37-47 | a new directory: zero `lastQuery`, no entries, nil `children`, valid |
| Versions.VersionsDir.IsRO | pkg/fs/versions.go:49-51 | always read-only |
| Versions.VersionsDir.DirMode | pkg/fs/versions.go:53-58 | 0500 when read-only, 0700 otherwise |
| Versions.VersionsDir.Attr | pkg/fs/versions.go:60-66 | mode exactly `os.ModeDir` plus 0500: a directory, no write bits, the process's uid and gid |
| Versions.VersionsDir.CondRefresh | pkg/fs/versions.go:108-191 | the error, the new `lastQuery`, `m` and `children`, and the requests sent are exactly those of `Refresh` |
| Versions.VersionsDir.AddRoots | pkg/fs/versions.go:154-165 | the roots loop writes each named root under its name, the last one winning, and returns exactly the set of names written |
| Versions.VersionsDir.Evict | pkg/fs/versions.go:169-173 | the eviction loop keeps exactly the children whose name is a current root |
| Versions.VersionsDir.AddImporters | pkg/fs/versions.go:176-187 | the importers loop writes each named importer root under its importer name over the root entries |
| Versions.VersionsDir.ReadDir | pkg/fs/versions.go:68-80 | the refresh's state change and requests; EIO when it fails, else one entry per name of `m`, each exactly once |
| Versions.VersionsDir.Lookup | pkg/fs/versions.go:82-105 | the refresh's error; ENOENT for a name not in `m` or bound to an invalid ref; otherwise the memoised child, or a fresh unpopulated `roDirV` for the entry's permanode, memoised |

## Left out

- Logging (`log.Printf`), the statistics counters `roFileOpen` and `roFileOpenError` that `Open` increments (pkg/fs/rover.go:380, 389), the debugging helper `fullPath` and the `parent` back-references it walks are not modelled.
- `sync.Mutex` locking and the `syncutil.Group` fan-out of the two searches are concurrency, not modelled. The refresh sends both searches and fails with EIO when either fails.
- Extended attributes are not modelled beyond their priming. `Getxattr`, `Listxattr` and the `xattr` helper's `get`, `list` and `load` are outside this model. A child of `roDirV.populate` records the attributes it is primed with, as `xattrs`.
- `schema.NewFileReader`, the content fetcher and `nodeReader` stream file content and are outside this model. `Open` takes whether the reader could be made as the argument `readerOpens`.
- `os.Getuid` and `os.Getgid` are the `uid` and `gid` fields of the file-system object.
- `isDir`, `isWriteFlags`, `blob.Ref.Sum64`, `blob.ParseOrZero`/`blob.Parse` and `time.Time.String` are uninterpreted functions on the file-system object.
- The `ents` and `modTime` fields of `versionsDir` are never used by the code and are not modelled.
- cmd/camtool/versions.go is a command-line wrapper (arguments, a network call, JSON output) and is not part of this model.
- `DescribeRequest` has a single `BlobRef` field and a `BlobRefs` list. Both are written here as one list of refs.
- Rover.ChildShape: Go dereferences the `Permanode` part of a described child without a nil check. The model reads a missing permanode part as no attributes instead of a crash. `roDirV.populate` does the same for its own permanode (`Rover.PermAttrs`).
- Rover.StepFor: the same reading applies to the `File` part of a claim's described blob. A missing file part means size 0 (`Rover.FileSize`).
- Rover.RoDirV.AddEntries: the loop builds the children map in a local and stores it once after the loop. The Go loop inserts in place, but it has no early exit, so the committed map is the same. Go iterates the attributes in an unspecified order; the model picks each key arbitrarily.
- Versions.VersionsDir.CondRefresh: the code reads the clock twice, once for the window check and once for the new `lastQuery`. The model uses one `now` for both.
