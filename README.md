# blendr-packer: a Dafny model of the pack resolver

blendr-packer turns a source tree into packs of assets in three stages, all in
`index.js`:

1. **Planning** (`listFiles`, `generateLoadMap`). Entry names are read as `id#type`, and file
   extensions are stripped. The scanned tree is then walked depth-first. Files are sorted into packs
   keyed by id, and each pack records the packs it includes.
2. **Execution** (`packIt`, driven by the loop of `Packr.prototype.pack`). A pack's includes are
   packed first. Their outputs are absorbed into its own files, and its packer is
   called. The pack's manifest entry is written, and the pack's id is pushed onto the dependency
   list of every pack it includes.
3. **Pruning** (`cleanUseless`). Flags on the packs mark which ones are redundant, and the output
   files of the redundant packs are deleted.

The model keeps the source's structure. Pure computations are functions:
- name parsing;
- the extension table of `computeFileInfos`.

Code that works step by step becomes methods with loops:
- the scanner;
- the planner;
- `packIt` and its driving loop;
- the two phases of the pruner.

Each such method is proved equal to a specification function, and the properties are proved about
those functions:
- the planner keeps a consistent manifest;
- a run keeps packed packs, the call order, the reverse edges and the manifest entries in step;
- every include is packed before its includer;
- the packer of a pack receives its files joined onto the source directory, followed by
  the outputs of its includes, in include order, each under its output name with its path under
  the destination directory;
- the pruner's marking does not depend on the order the packs are visited;
- which packs a whole run followed by pruning retains and deletes.

JavaScript objects enumerated with `for ... in` are modelled as ordered dictionaries
(`Dicts.Dict`). Keys come out in insertion order. Assigning to a key that is already present keeps
its place.

Modules, one file each:
- `Dicts`, `Seqs`: ordered dictionaries, occurrence counts.
- `Optional`, `Names`: entry names.
- `Tree`: the scanner.
- `Packers`: the packer interface and the raw packer.
- `Planner`: the planner.
- `Executor`: execution as functions.
- `Feeds`: what reaches a packer.
- `Runs`: run invariants.
- `Driver`: whole runs.
- `Packr`: execution as methods.
- `Pruner`: the pruner.
- `Outcome`: pruning after a whole run.
- `Kinds`: file types.

Two comments in `index.js` say something other than what the code next to them does:
- **Pruning retains includers.** The comment at index.js:234 says that an include can be deleted
  when no dependency references it. But `packIt` pushes an includer's id onto the dependency list
  of each pack it includes (index.js:221-226). The mark phase then forces `virtual = false` on the
  packs *named in* a dependency list (index.js:247-254), so it retains the includers and not the
  included packs. The `virtualChildren` test reads the packer of the *including* pack
  (index.js:235). The model follows the code. `Outcome.PruneAfterRun` states the result: after a
  whole run, a pack is kept exactly when it includes something. It is marked for deletion exactly
  when it includes nothing and some pack whose packer has `virtualChildren` includes it. So a pack
  with a non-empty dependency list can still be deleted.
- **Extensions are always stripped.** The comment at index.js:46 says that a file's extension is
  removed. The removal at index.js:47 is guarded by `!root.isDir`, and `root` is not declared in
  `listFiles`. In the Node.js releases of the code's time, `root` was a deprecated alias of the
  global object, which has no `isDir`, so the guard always holds. The model strips the extension of
  every file, as the comment says.

The root node handed to `generateLoadMap` has no `type` (index.js:279-282); the model gives it the
empty type.

## Model

| member | source | states |
|---|---|---|
| Names.LastIndexOf | index.js:28 | `lastIndexOf`: absent exactly when the character does not occur; otherwise a position holding it with no later occurrence |
| Names.ParseName | index.js:22-36 | without `#` the id is the whole name and the type is empty; otherwise the name is `pre#type` split at the last `#`, the type holds no `#`, and the id is `pre` unless `pre` is blank, when it is the type; the id is not trimmed |
| Names.StripExtension | index.js:46-49 | `/\.[^/.]+$/` removed: the result is a prefix of the name; what is removed is a dot followed by one or more characters that are neither `.` nor `/`; nothing is removed only when no suffix has that form |
| Names.StripAt | index.js:48 | a dot followed by extension characters up to the end is cut exactly there |
| Names.SplitAtLastHash | index.js:28-31 | example: `icon.png#image` has id `icon.png` and type `image` |
| Names.BlankIdIsType | index.js:33-35 | example: a blank id before `#` is replaced by the type |
| Names.IdKeptUntrimmed | index.js:28-35 | the split is at the last `#` and a non-blank id keeps its spaces |
| Names.StripLastExtension | index.js:48 | example: only the last extension is removed |
| Names.StripDotFile | index.js:48 | example: a dot file loses its whole name |
| Names.StripTrailingDot | index.js:48 | example: a trailing dot is not an extension |
| Names.FileIdExample | index.js:28-49 | example: a file `icon.png#image` gets the id `icon` |
| Tree.Built | index.js:22-57 | each listed entry gives one child, in listing order, under its parsed id, with its type, directory bit, relative path and scanned children |
| Tree.PutChildSpec | index.js:39-56 | `flatFiles[id] = ...`: ids stay unique, the new child is present, earlier ids keep their places, other children are untouched, and a new id goes last |
| Tree.PutChildIds | index.js:39-56 | assigning a child adds exactly its id to the id set |
| Tree.PutAllUnique | index.js:22-58 | the scanned directory has no id twice |
| Tree.PutAllIds | index.js:22-58 | the scanned directory has exactly the ids of its entries |
| Tree.PutAllLastWins | index.js:22-58 | of entries sharing an id, the last one listed is the one kept |
| Tree.PutAllKeepsPlaces | index.js:22-58 | the ids scanned so far keep their order as later entries are added |
| Tree.ScanSpec | index.js:13-61 | the scan has unique ids, the ids of the entries, and the last entry for each id |
| Tree.ListFiles | index.js:13-61 | the recursive scan computes Scan on the listing |
| Tree.ListEntry | index.js:22-57 | one entry gets the id and node Built gives it: its parsed id, less the extension for a file, and for a directory its scanned children |
| Packers.Raw | raw-packer.js:7-19 | the raw packer declares no virtual children and maps every logical id to the basename of its input |
| Packers.MakeRegistry | index.js:270-276 | the registry always has `raw`; given packers are kept and override it; there is nothing else |
| Planner.StoreSpec | index.js:99-116 | storing a pack: a new id is appended with the pack; an existing id keeps its place, takes the new type, concatenates includes and dependencies, and merges files as `Object.assign` does (new values win, new keys after old ones) |
| Planner.StoreGrows | index.js:99-116 | storing keeps the manifest consistent (registered types, empty dependency lists, includes that exist) and only adds ids |
| Planner.StoreKeepsInv | index.js:99-116 | storing a pack with a registered type, no dependencies and known includes keeps the manifest consistent |
| Planner.GenerateLoadMap | index.js:63-124 | the recursive walk computes PlanNode: the new manifest and the id the node resolved to, or none |
| Planner.GenerateChildren | index.js:77-90 | the child loop computes PlanChildren: the manifest, the node's own files and the packs it includes |
| Planner.GenerateChild | index.js:78-88 | one child planned, then kept as an include when it resolved to another pack id, else as a file of the node, is one step of PlanChildren |
| Planner.PlanNodeKeeps | index.js:63-124 | planning a node keeps the manifest consistent, only adds to it, and returns an id that is in it |
| Planner.PlanChildrenKeeps | index.js:77-90 | the child loop keeps the manifest consistent, only adds, and includes only ids in it |
| Planner.PlanTreeValid | index.js:278-287 | the plan of a whole tree is a consistent manifest |
| Planner.UnresolvedNode | index.js:70-123 | a node whose type names no packer returns null, leaves the packs as its children left them, and warns once unless the type is empty; a directory keeps its own type and a file falls back to the default |
| Planner.SilentBelowPack | index.js:82-123 | below a resolved pack (default `''`) an untyped lone file returns null, changes nothing and warns nothing |
| Planner.LoneFile | index.js:92-118 | a lone file with a registered type is stored under the type's name with its path under its own id, keeping any includes already there, and that name is returned |
| Planner.OneChildDir | index.js:63-118 | a directory with one child and a registered type plans the child under its joined id with an empty default, classifies its result, and stores its own pack under its own id |
| Planner.LoneFileCycle | index.js:84-96 | the tree `image#raw/sub#json/c.png#image`, with `json` and `image` registered, is planned with `image` including `image-sub` and `image-sub` including `image`: the lone file is stored under its type, which is the directory's id |
| Planner.ChildIdInjective | index.js:80 | distinct child names give distinct local ids |
| Planner.ChildrenClassified | index.js:77-90 | after the loop, the includes are exactly the children's include results in order (non-empty ids other than the node's own); every other child is a file under its local id with its path; there are no other files |
| Planner.ClassifyRest | index.js:78-89 | the loop from any child on completes the classification |
| Planner.ClassifyStep | index.js:84-88 | one child's result classified extends the classification by that child |
| Executor.JoinAll | index.js:178-181 | `path.join(srcDir, ...)` on every value: same keys in the same order, each value joined |
| Executor.AbsoluteFiles | index.js:206-211 | `absoluteFiles`: each output joined onto the destination directory, in output order |
| Executor.Finished | index.js:203-204 | the pack after its packer ran: packed, files and dependencies kept, outputs as the packer returned them for its current files |
| Executor.PushFrom | index.js:221-226 | pushing reverse edges changes only dependency lists |
| Executor.Finish | index.js:202-226 | the end of `packIt` leaves the pack packed, keeps every packed pack packed, and adds only the call of this pack |
| Executor.Exec | index.js:173-227 | `packIt` leaves the pack packed, keeps every pack already packed, and adds calls only of this pack and of packs below it in the include order; what its packer receives is Feeds.ExecFeeds |
| Executor.ExecIncludes | index.js:184-200 | the include loop leaves every remaining include packed and calls only packs below the includer; what the includer's files become is Feeds.ExecIncludesFeeds |
| Executor.RunInclude | index.js:186-191 | an include not yet packed is packed first |
| Executor.Absorb | index.js:193-198 | absorbing an include's outputs keeps every packed pack packed and the calls as they were; its whole effect is Feeds.AbsorbFiles |
| Executor.RunAll | index.js:317-319 | the driving loop as written leaves every listed pack packed |
| Executor.RunGuarded | index.js:317-319 | the corrected loop also leaves every listed pack packed |
| Executor.RunUnlessPacked | index.js:317-319 | one turn of the corrected loop packs its pack unless it is packed already |
| Executor.ExecIncludesStep | index.js:185-199 | one include handled, then the rest of the loop |
| Feeds.AbsorbMap | index.js:194-198 | after adding one include's outputs from any position on, a name is present exactly when it was before or names one of those outputs; a name held by several outputs takes the path of the last of them; any other name keeps its value |
| Feeds.AbsorbOrder | index.js:194-198 | the keys are the old keys followed by each new output name once, in the order of its first occurrence |
| Feeds.AbsorbFiles | index.js:193-198 | absorbing an include changes only the includer's files; an output name takes the output joined onto the destination directory, the last output of that name winning; other names keep their values; new names go last in first-occurrence order |
| Feeds.AbsorbedMembers | index.js:184-200 | over all includes, a name is present exactly when it was before or names an output of one of them; a name no include outputs keeps its value; the earlier keys stay at the head in their order |
| Feeds.OutputOfSomeStep | index.js:185-199 | an output of the includes from one on is an output of that include or of the ones after it |
| Feeds.AbsorbedSameOutputs | index.js:194-198 | what the includes add depends only on their outputs |
| Feeds.FilesSettle | index.js:178-181 | rewriting a pack's files keeps every packed pack's outputs and every other pack's files and flag |
| Feeds.FinishSettles | index.js:202-226 | the end of `packIt` on an unpacked pack keeps every packed pack packed with its outputs, and the files and flag of every pack ranked above it |
| Feeds.ExecSettles | index.js:173-227 | `packIt` on a pack not yet packed keeps every packed pack packed with its outputs, and the files and flag of every pack ranked above it |
| Feeds.ExecIncludesSettles | index.js:184-200 | the include loop does the same for the packs ranked above the includer and keeps the includer's flag |
| Feeds.TurnSettles | index.js:185-199 | running one include settles every pack ranked above it, the includer among them, and absorbing it changes only the includer's files |
| Feeds.ExecIncludesFeeds | index.js:184-200 | after the include loop the includer's files are its files before the loop with the outputs of each include added in include order, each include's outputs as the run leaves them |
| Feeds.FinishFeeds | index.js:202-204 | the end of `packIt` keeps its files, gives it the packer's outputs on them, and leaves the outputs of its includes |
| Feeds.ExecFeeds | index.js:173-204 | the packer of a pack is called on its files joined onto the source directory followed by the outputs of its includes in include order, and the pack keeps those files and the packer's outputs |
| Runs.EdgesCount | index.js:221-226 | a pack's dependency list holds each includer once per call of that includer per time it lists the pack |
| Runs.EdgesMember | index.js:221-226 | a pack is on another's dependency list exactly when it has been called and includes it |
| Runs.PushFromSpec | index.js:221-226 | the pushes of one call append the caller once per occurrence of the pack among its includes |
| Runs.FilesKeep | index.js:178-198 | rewriting a pack's files keeps the run invariants |
| Runs.FinishEdges | index.js:221-226 | the end of `packIt` keeps the dependency lists equal to the edges of the calls |
| Runs.FinishAssets | index.js:213-219 | the end of `packIt` writes the manifest entry of exactly the called pack, with its type, includes and outputs |
| Runs.FinishPacked | index.js:203-204 | the end of `packIt` keeps packed and called the same |
| Runs.FinishOrder | index.js:184-204 | a pack called after all its includes keeps every call after the calls of its includes |
| Runs.ExecPacked | index.js:173-227 | `packIt` keeps "packed exactly when called" |
| Runs.ExecIncludesPacked | index.js:184-200 | the include loop keeps "packed exactly when called" |
| Runs.ExecEdges | index.js:173-227 | `packIt` keeps each dependency list equal to the edges the calls pushed |
| Runs.ExecIncludesEdges | index.js:184-200 | the include loop keeps the dependency lists equal to the edges the calls pushed |
| Runs.ExecAssets | index.js:173-227 | `packIt` keeps a manifest entry for exactly the called packs |
| Runs.ExecIncludesAssets | index.js:184-200 | the include loop keeps a manifest entry for exactly the called packs |
| Runs.ExecOrder | index.js:184-204 | `packIt` keeps every pack's call after the calls of its includes |
| Runs.ExecIncludesOrder | index.js:184-200 | the include loop keeps every pack's call after the calls of its includes |
| Runs.ExecInv | index.js:173-227 | `packIt` keeps the whole run invariant |
| Runs.NotCalledBelow | index.js:186-191 | a pack is not called while only packs of lower rank are |
| Runs.ExecOnce | index.js:173-227 | `packIt` on an unpacked pack calls no packer twice |
| Runs.ExecIncludesOnce | index.js:184-200 | the include loop calls no packer twice |
| Driver.InitialInv | index.js:305-314 | a planned manifest loads into a state satisfying the run invariant |
| Driver.ExecEndsWith | index.js:203-204 | `packIt` ends with the call of its own pack, after what came before |
| Driver.RunAllInv | index.js:317-319 | the loop as written keeps the run invariant |
| Driver.RunAllPrefix | index.js:317-319 | later turns of the loop only add calls |
| Driver.RunAllTurn | index.js:317-319 | each turn of the loop as written ends with a call of its own pack |
| Driver.IncludeCalled | index.js:184-204 | the includes of a packed pack have been called |
| Driver.CalledBefore | index.js:317-319 | a pack included by an earlier pack is called before its own turn |
| Driver.RunAllRepeats | index.js:317-319 | a pack listed after an includer has its packer called twice by the end of its own turn |
| Driver.RunAllDuplicatesEdges | index.js:317-319 | its includes then hold its id twice in their dependency lists |
| Driver.ExecFilesAlone | index.js:178-181 | a pack with no includes ends with its files joined onto the source directory once |
| Driver.ReexecJoinsTwice | index.js:178-181 | executing such a pack again joins its files onto the source directory twice |
| Driver.RunGuardedInv | index.js:317-319 | the corrected loop keeps the run invariant and calls no packer twice |
| Driver.GuardedRun | index.js:317-319 | the corrected run over an acyclic planned manifest packs every pack with one packer call; each dependency list holds the includers once per listing; every pack has its manifest entry |
| Driver.CyclicPlanHasNoRank | index.js:184-204 | the manifest planned from that tree has no rank decreasing along includes, so the runs above do not apply to it |
| Driver.EdgesOnce | index.js:221-226 | a pack called exactly once pushes its id onto each include's list once per listing |
| Packr.MakeAbsolute | index.js:178-181 | the in-place loop computes JoinAll |
| Packr.AbsorbOutputs | index.js:194-198 | the output loop computes AbsorbFrom, whose content Feeds.AbsorbMap and whose order Feeds.AbsorbOrder state |
| Packr.PushEdges | index.js:221-226 | the push loop computes PushFrom |
| Packr.PackIt | index.js:173-227 | the method computes Exec |
| Packr.IncludeTurn | index.js:185-199 | one include turn computes the include run followed by the absorption |
| Packr.PackIncludes | index.js:184-200 | the include loop computes ExecIncludes from the first include |
| Packr.Complete | index.js:202-226 | the end of `packIt` computes Finish |
| Packr.PackAll | index.js:317-319 | the loop as written computes RunAll |
| Packr.PackAllGuarded | index.js:317-319 | the corrected loop computes RunGuarded |
| Pruner.Mark | index.js:231-255 | the mark phase changes only flags, each ending as Marked says: false if a visited pack lists it as a dependency, else true if it was unset and a visited `virtualChildren` pack includes it, else as it was; this holds in any visiting order |
| Pruner.Visit | index.js:232-254 | one pack visited moves every flag to Marked over the packs visited so far |
| Pruner.MarkIncludes | index.js:236-243 | an included pack's unset flag becomes true; a set flag is left alone; nothing else changes |
| Pruner.MarkDependencies | index.js:247-253 | every pack on the dependency list gets false; nothing else changes |
| Pruner.MarkStep | index.js:232-254 | one more visited pack turns a flag from Marked over the earlier packs into Marked over the packs up to it |
| Pruner.MarkTurn | index.js:232-254 | the same step for every pack at once |
| Pruner.Deletions | index.js:258-266 | the delete loop collects exactly Doomed: the outputs of each pack flagged true, joined onto the destination directory as `pack` was given it, in order |
| Pruner.Unlinks | index.js:263-265 | the inner loop yields a pack's outputs, in order, each joined onto that directory |
| Pruner.ValuesJoined | index.js:263-265 | a path is among a pack's joined outputs exactly when some output joins to it |
| Pruner.DoomedSpec | index.js:258-266 | a path is deleted exactly when it is an output of a visited pack flagged true, joined onto the destination directory as `pack` was given it |
| Outcome.FinishUnflagged | index.js:202-226 | the end of `packIt` writes no flag |
| Outcome.ExecUnflagged | index.js:173-227 | `packIt` writes no flag |
| Outcome.ExecIncludesUnflagged | index.js:184-200 | the include loop writes no flag |
| Outcome.AbsorbUnflagged | index.js:193-198 | absorbing writes no flag |
| Outcome.RunGuardedUnflagged | index.js:317-319 | a whole corrected run writes no flag |
| Outcome.RunEdges | index.js:221-226 | after a whole corrected run the flags are unset, and each dependency list holds each includer once per listing and nothing else |
| Outcome.EdgesKnown | index.js:221-226 | only packs of the manifest are pushed as dependencies |
| Outcome.DependedIffIncludes | index.js:247-253 | with those lists, a pack is named in some dependency list exactly when it includes something |
| Outcome.MarkedFromEdges | index.js:231-255 | with those lists and unset flags, the mark phase retains exactly the includers, and marks for deletion exactly the packs that include nothing and are included by a `virtualChildren` pack |
| Outcome.PruneAfterRun | index.js:229-268 | after a whole corrected run over an acyclic planned manifest the pruner can visit every pack, and it retains and deletes as MarkedFromEdges says |
| Kinds.FileType | index.js:144-159 | a listed extension gets its table type; otherwise the type is the extension without its first character; case matters; each type names exactly its table extensions plus the one spelled after the type |
| Kinds.CaseMatters | index.js:144-159 | example: `.PNG` is typed `PNG` and `.png` is typed `image` |
| Dicts.Put | index.js:39-56 | assigning a key changes its value; a present key keeps its place, a new key goes last |
| Dicts.PutKeysOrder | index.js:106 | assigning keys one after another appends each new key once, where it first occurs |
| Dicts.AssignSpec | index.js:106 | `Object.assign({}, a, b)` has the keys of both; values of `b` win; the keys of `a` come first, then the new keys of `b` in order |

## Left out

- The filesystem. The scanner takes the directory listing as its input. The bytes packers write,
  and `rm -rf` / `mkdirp` on the destination (index.js:302-303), are not modelled. The deletions
  are the list of paths `fs.unlinkSync` would be given.
- YAML and JSON. `yaml.safeDump`/`safeLoad` are taken as the identity on the manifest
  (index.js:291, 305), and writing `manifest.yaml`/`manifest.json` (index.js:293-295, 330) is
  not modelled.
- `computeFileInfos`' directory walk and byte sizes (index.js:127-142, 161-170) are I/O; only its
  extension table is modelled. `path.extname` is taken as given: `Kinds.FileType` receives the
  extension.
- `path.join` and `path.basename` are uninterpreted functions given as parameters. `path.resolve`
  is not modelled: `Executor.Env` holds the source and destination directories already resolved
  (index.js:318), and the pruner takes the destination directory as `Packr.prototype.pack` was
  given it (index.js:325). Nothing relates the two.
  The `.replace(rootDir, '')` of index.js:25 is not modelled; a node's path is its relative path.
- Ids and packer types that name members of `Object.prototype` (`constructor`, `toString`,
  `__proto__`, ...) are not modelled. JavaScript finds them through the prototype chain
  (index.js:39, 51, 70-71, 99, 104): such a name reads as present and can make `concat` throw, and
  assigning to `__proto__` replaces the prototype instead of adding a key. The model treats every
  name as an ordinary key.
- `console.warn` is modelled as a list of warnings in the plan.
- The enumeration order of integer-like keys (JavaScript lists them first, in numeric order) is
  not modelled; every key is enumerated in insertion order.
- A manifest whose includes form a cycle makes `packIt` recurse without end, since `packed` is set
  only after the includes are done (index.js:189, 204). The planner can build one:
  `Planner.LoneFileCycle` plans `image#raw/sub#json/c.png#image` into two packs that include each
  other, and `Driver.CyclicPlanHasNoRank` shows that no rank orders them. Execution is modelled
  only over acyclic manifests: it requires a rank that decreases along includes (`Executor.Static`). An include naming a pack that is not in
  the manifest makes `packIt` throw; the model requires includes to exist.
- `absoluteFiles` (index.js:207-210) is not stored. It is always the outputs joined onto the
  destination directory, and `Executor.AbsoluteFiles` computes it where it is read.
- The manifest entry's `dependencies` is the pack's own array (index.js:216), so later pushes show
  in both. The model keeps one list, on the pack.
- `pack.id` (index.js:308-309) is the pack's key in the model.
- The pruner's preconditions are the dereferences `cleanUseless` makes without checks
  (index.js:235, 238, 250, 260-263). A pack it visits must exist, with a registered packer, and so
  must the packs its includes and its dependency list name. A pack flagged true must have a
  manifest entry.
- Executor.Exec: its own contract states the packed flags, the frame and the calls; which files
  reach the packer is stated apart, by `Feeds.ExecFeeds`, to keep the contract cheap for its many
  callers.
- Executor.ExecIncludes: what the includer's files become is stated apart, by
  `Feeds.ExecIncludesFeeds`, for the same reason.
- Executor.Absorb: what it does to the includer's files is stated apart, by `Feeds.AbsorbFiles`.
- Driver.RunAllRepeats: states the second packer call within the turn of the repeated pack, not
  over the whole loop; `Driver.RunAllPrefix` carries it to the end of the loop.

## Findings

| source | as written | input that shows it | evidently intended | confidence | as-written member | corrected member |
|---|---|---|---|---|---|---|
| index.js:317-319 | the driving loop calls `packIt` on every pack, including a pack already packed through an includer earlier in the loop | a manifest listing pack `A` (including `B`) before `B`, where `B` includes `C`: `B`'s packer is called twice, its files are joined onto the source directory twice, and `C`'s dependency list holds `B` twice | skip packs already packed, as `packIt` itself does for includes (index.js:189) | not executed | Driver.RunAllRepeats, Driver.RunAllDuplicatesEdges, Driver.ReexecJoinsTwice, Packr.PackAll | Driver.GuardedRun, Packr.PackAllGuarded |
