# Middleclass Witch core, in Dafny

Middleclass Witch is an editor extension that manages a folder of Markdown
notes. It finds todo lines and front-matter headers in those notes and
builds an index of the attributes they carry (`@assignee(Pete)`,
`project: X`). This project models the deterministic core of the
extension and proves properties of that model. The modelled parts are:

- attribute-name and attribute-value completion inside todo lines and headers;
- the per-file parser: todo stamping and the front-matter header;
- the folder walk and the attribute index built by `parseFolder`;
- archiving the files that carry an attribute value;
- loading the configuration and filling in the default folder names;
- the todo tree view: status and priority icons, grooming (filter and sort), subtask flattening, grouping by status or by attribute, and the top-level order;
- the file tree view: the filter dictionary, the file filter and the recursive grouping of files by attribute values;
- the file-system event listener, which re-parses the folder at most once per 100 ms;
- the migration script's walk, which lists every `.md` file under a folder.

Each modelled source file has its own module: `Completion`, `FileParser`,
`FolderParser`, `FileOperations`, `ConfigFileLoader`, `TodoView`,
`FileView`, `FsEventListener` and `MigrateFromPw`. Shared modules hold the
rest:

- `Model`: todos, attribute values, YAML values and JavaScript truthiness and string forms.
- `Text`: the string and `path` operations.
- `Seqs`: filters, subsequences and concatenation.
- `Sorting`: a stable insertion sort on sequences and in place on arrays. It stands for `Array.prototype.sort`, which is stable.
- `Results`: `Option` and `Result`.

Code that updates state in place is modelled as classes or methods whose
contracts tie them to reference functions:

- the view objects, the listener, the configuration's `folders` object and the file system;
- the `forEach`/`for` loops of `parseFolder`, `findTodos`, `archive`, `getItemsByAttributeRec` and `listAllMdFiles`;
- the in-place `sort` of `groomTodos`.

Code that only computes values is modelled as functions, and lemmas about
those functions carry the properties.

Collaborators the core calls but does not define become parameters:

- `yaml.parse` (`None` for a parse that throws);
- the todo line parser `LineOperations.toTodo`;
- the per-file `parseFile`;
- `localeCompare`, which becomes a rank function `collate`, so that equal ranks mean equal order;
- the clock (`now` in the listener, the due group's todos in the todo view);
- the directory tree (`readdirSync` and `lstatSync` folded into a tree of entries);
- the result of parsing the folder at each refresh of the listener.

## Model

| member | source | states |
|---|---|---|
| Completion.CompleteAttribute | src/domain/Completion.ts:8-10 | the proposals are exactly the known attribute names that start with the prefix |
| Completion.CompleteAttributeValue | src/domain/Completion.ts:12-17 | an attribute without a value list yields `[]`; a list holding a boolean makes `startsWith` throw, an error; otherwise the proposals are exactly its recorded string values that start with the prefix |
| Completion.EmptyPrefixProposesAll | src/domain/Completion.ts:8-17 | an empty prefix proposes every known name, and every recorded value of a known attribute whose values are all strings, in index order |
| Completion.CompletionsAreSubsequences | src/domain/Completion.ts:8-17 | proposals keep the order and multiplicity of the name list or string value list they come from |
| Completion.FindCurrentWordBeginning | src/domain/Completion.ts:19-28 | the backward scan loop computes the word the reference scan function describes; a non-empty word starts with `@` and holds no line break |
| Completion.ScanStartSpec | src/domain/Completion.ts:20-23 | the scan stops at or before the caret, on an `@` or a line break unless it reached 0, and passes over neither |
| Completion.WordAtToken | src/domain/Completion.ts:19-28 | when an `@` preceded by a space starts the token before the caret, the word is the text from that `@` to the caret |
| Completion.WordHasToken | src/domain/Completion.ts:24-27 | a non-empty word always comes from such a token |
| Completion.WordWithoutToken | src/domain/Completion.ts:24-26 | without such a token the word is empty |
| Completion.CompleteTodoOutsideToken | src/domain/Completion.ts:30-34 | without an attribute token before the caret (line break first, `@` at index 1 or less, `@` not after a space) nothing is proposed |
| Completion.CompleteTodoName | src/domain/Completion.ts:35-41 | with no `(` in the token, the proposals are the names that start with the text after `@` |
| Completion.CompleteTodoValue | src/domain/Completion.ts:35-40 | with a `(`, the name is the text between `@` and the first `(`, and the proposals are its values that start with the text after it, or the error that a boolean value raises |
| Completion.CompleteTodoIgnoresSuffix | src/domain/Completion.ts:19-41 | text after the caret does not change the proposals unless it starts with `@` or a line break |
| Completion.CompleteHeaderValue | src/domain/Completion.ts:44-50 | with the first `:` before the caret, the proposals are the values of the trimmed key that start with the left-trimmed text after `:`, or the error that a boolean value raises |
| Completion.CompleteHeaderName | src/domain/Completion.ts:44-51 | without a `:` before the caret, the proposals are the names that start with the trimmed text before the caret |
| Completion.IsInHeader | src/domain/Completion.ts:54-68 | the header scan loop computes the header-membership function; a line is in a header only when the content starts with `---` |
| Completion.HeaderStep | src/domain/Completion.ts:63-66 | each pass of the scan moves past the next line break and counts one more header line |
| Completion.InHeaderDownward | src/domain/Completion.ts:54-68 | header membership is closed downwards: every line above a header line is a header line |
| FileParser.AcceptedTodosExact | src/domain/FileParser.ts:15-19 | the kept todos are exactly the non-null results of the line parser, in line order, with their line numbers |
| FileParser.ProjectOf | src/domain/FileParser.ts:22 | the stamped project is the `project` attribute when truthy, and `""` otherwise |
| FileParser.FindTodos | src/domain/FileParser.ts:15-25 | every accepted todo, in order, stamped with the file and its project, and nothing else changed |
| FileParser.NoHeader | src/domain/FileParser.ts:27-34 | without a usable header a file has its path, its base name, no project and empty attributes |
| FileParser.FromHeader | src/domain/FileParser.ts:43-48 | a header parse that throws, or parses to `null`, is an error; otherwise the attributes are the parse, and the project is set exactly when the parsed `project` is truthy, to its string form |
| FileParser.GetFileProperties | src/domain/FileParser.ts:27-49 | no leading `---\n` (in particular a `---\r\n` opening) or no closing `---` gives the empty properties; otherwise the properties come from the text between them |
| FolderParser.ParseFile | src/domain/FolderParser.ts:17-24 | a path that does not end in `.md` yields no todos |
| FolderParser.WalkParsesReadFiles | src/domain/FolderParser.ts:26-43 | the walk's todos are the parses of the files it reads, concatenated in listing order, depth first |
| FolderParser.ReadFilesAreMarkdown | src/domain/FolderParser.ts:17-43 | only `.md` files are read |
| FolderParser.NothingReadUnderTemplates | src/domain/FolderParser.ts:27-29 | nothing below the templates folder is read, for a walk that does not start inside it |
| FolderParser.IndexNames | src/domain/FolderParser.ts:48-61 | the index lists, once each and in first-seen order, exactly the attribute names some todo carries |
| FolderParser.IndexValues | src/domain/FolderParser.ts:53-59 | each value list holds, once each, exactly the non-`true` values of that attribute |
| FolderParser.AddAttributesAppend | src/domain/FolderParser.ts:48-61 | indexing two runs of attributes in turn is indexing them together |
| FolderParser.AddProjectsSpec | src/domain/FolderParser.ts:74-78 | the intended project pass (lines 74-78 with `!find` read as "not listed") keeps the `project` list free of repetitions and adds exactly the todos' defined projects |
| FolderParser.AddProjectsFrame | src/domain/FolderParser.ts:74-78 | the project pass changes no list other than `project` |
| FolderParser.FolderNames | src/domain/FolderParser.ts:63-67 | the name list is sorted by `collate`, distinct, and is every attribute name of some todo; it is taken before `project` and `selected` are added |
| FolderParser.FolderKeys | src/domain/FolderParser.ts:63-73 | the value dictionary has a list for every attribute name, plus `project` and `selected` |
| FolderParser.FolderListsDistinct | src/domain/FolderParser.ts:57-78 | no list other than `project` has repetitions, nor has the run of truthy projects; a falsy project occurs once per todo carrying it, on top of its attribute occurrences |
| FolderParser.FolderValues | src/domain/FolderParser.ts:53-60 | outside `project`, a list holds exactly the non-`true` values the todos carry for that name |
| FolderParser.FolderProjects | src/domain/FolderParser.ts:68-78 | `project` and `selected` always have a list; every defined project is listed, and a truthy one exactly once |
| FolderParser.ProjectPassesAgree | src/domain/FolderParser.ts:74-78 | the written and the intended project pass agree outside `project`, list the same values and the same truthy values in order, and are equal when no todo's project is falsy |
| FolderParser.FalsyProjectRepeated | src/domain/FolderParser.ts:74-78 | as written, a falsy project is pushed once for every todo carrying it, whatever the list already holds |
| FolderParser.IntendedFolderProjects | src/domain/FolderParser.ts:68-78 | with the intended pass no list has repetitions and every defined project is listed exactly once; that is what `parseFolder` returns when no project is falsy |
| FolderParser.FolderProjectsFrom | src/domain/FolderParser.ts:57-78 | the `project` list holds only defined projects and non-`true` `project` attribute values |
| FolderParser.IndexAttributes | src/domain/FolderParser.ts:48-61 | the nested `forEach` computes the index function |
| FolderParser.CollectProjects | src/domain/FolderParser.ts:74-78 | the project `forEach`, with its `find` truthiness test, computes the project pass as written |
| FolderParser.ParseFolder | src/domain/FolderParser.ts:45-80 | `parseFolder` returns the walk's todos, the sorted names and the value dictionary completed by the project pass as written |
| FolderParser.EmptyProjectListedTwice | src/domain/FolderParser.ts:75 | as written, two todos with project `""` leave `""` listed twice after an empty list |
| FileOperations.ArchiveFolder | src/domain/FileOperations.ts:8-14 | the archive folder is root, archive folder, year, then `name - value` |
| FileOperations.ArchiveFolderName | src/domain/FileOperations.ts:8-14 | the archive folder's base name is `name - value` |
| FileOperations.ArchiveMovesExactly | src/domain/FileOperations.ts:18-24 | a rename is planned exactly for each file whose header holds the string value, to the archive folder under the file's own name |
| FileOperations.ApplyMovesStuck | src/domain/FileOperations.ts:21-24 | after a rename throws, later files are not moved |
| FileOperations.ApplyMovesFrame | src/domain/FileOperations.ts:21-24 | a path that no rename touches keeps its file or its absence |
| FileOperations.ApplyMovesLands | src/domain/FileOperations.ts:21-24 | with existing, distinct sources and distinct destinations that are not sources, every file ends at its destination and leaves its source |
| FileOperations.Archive | src/domain/FileOperations.ts:7-25 | the folder chain is created only when the folder is missing, and the files end as the planned renames leave them |
| FileOperations.MoveAll | src/domain/FileOperations.ts:21-24 | the rename loop stops at the first failure and leaves the files as the renames up to it leave them |
| ConfigFileLoader.WithDefaultSpec | src/domain/ConfigFileLoader.ts:18-25 | a defaulted name is truthy, a truthy name is kept, and defaulting twice is defaulting once |
| ConfigFileLoader.AddDefaultValues | src/domain/ConfigFileLoader.ts:18-25 | `current` and `archive` get `current` and `archived` when falsy, and are then truthy; `templates` is untouched |
| ConfigFileLoader.LoadConfig | src/domain/ConfigFileLoader.ts:27-41 | without a file, the defaults; with one, its `config.folders` defaulted; an unparsable file or a missing `config` is an error |
| TodoView.StatusToIcon | src/infrastructure/views/TodoHierarchicView.ts:27-44 | every status has a non-empty icon |
| TodoView.StatusIconRoundTrip | src/infrastructure/views/TodoHierarchicView.ts:27-44 | the icon determines the status |
| TodoView.MapPriorityFirst | src/infrastructure/views/TodoHierarchicView.ts:55-78 | the priority icon is the icon of the first `priority` or `importance` attribute |
| TodoView.MapPriorityNone | src/infrastructure/views/TodoHierarchicView.ts:55-78 | without such an attribute there is no icon |
| TodoView.PriorityValueMatchesIcon | src/infrastructure/views/TodoHierarchicView.ts:58-78 | a priority value has an icon exactly when it has a non-zero rank, and critical > high > medium in rank |
| TodoView.DirectedByKeyTotal | src/infrastructure/views/TodoHierarchicView.ts:310-331 | the status and priority comparators are total preorders in both directions |
| TodoView.AsWrittenNotAnOrder | src/infrastructure/views/TodoHierarchicView.ts:333-335 | as written, two todos lacking the attribute each compare greater than the other, so the attribute comparator is not an order |
| TodoView.AsWrittenFlagsInconsistent | src/infrastructure/views/TodoHierarchicView.ts:338-343 | as written, two todos holding the same flag (both `true` or both `false`) are each declared smaller than the other |
| TodoView.CompareAttributeAgrees | src/infrastructure/views/TodoHierarchicView.ts:333-353 | the corrected comparator has the sign of the written one whenever the written one is consistent (different classes, or two strings) |
| TodoView.AttributeLeTotal | src/infrastructure/views/TodoHierarchicView.ts:333-353 | the corrected attribute comparator is a total preorder |
| TodoView.SortComparatorTotal | src/infrastructure/views/TodoHierarchicView.ts:310-356 | every comparator the view sorts with is a total preorder |
| TodoView.GroomContents | src/infrastructure/views/TodoHierarchicView.ts:303-358 | grooming keeps each shown todo as often as it occurs and drops completed or canceled ones when they are hidden |
| TodoView.GroomMembers | src/infrastructure/views/TodoHierarchicView.ts:303-309 | a todo is in the result exactly when it is in the input and shown |
| TodoView.GroomSorted | src/infrastructure/views/TodoHierarchicView.ts:310-356 | the result is sorted by the selected comparator |
| TodoView.GroomStatusOrder | src/infrastructure/views/TodoHierarchicView.ts:313-316 | sorting by status orders the status values up or down |
| TodoView.GroomPriorityOrder | src/infrastructure/views/TodoHierarchicView.ts:295-331 | sorting by priority orders the priority ranks up or down |
| TodoView.GroomAttributeOrder | src/infrastructure/views/TodoHierarchicView.ts:333-355 | sorting by another attribute orders by class, then strings by `collate` |
| TodoView.GroomStable | src/infrastructure/views/TodoHierarchicView.ts:310-355 | todos the comparator ties keep their input order |
| TodoView.GroomUnsorted | src/infrastructure/views/TodoHierarchicView.ts:319-321 | an attribute sort without a name only filters, keeping the input order |
| TodoView.TodoTreeView.constructor | src/infrastructure/views/TodoHierarchicView.ts:180-210 | without storage every flag is on, grouping is by status and sorting by status upward |
| TodoView.TodoTreeView.GroomTodos | src/infrastructure/views/TodoHierarchicView.ts:303-358 | the groomed array holds the groomed todos; with nothing filtered out it is the input array, sorted in place |
| TodoView.AllTodosAgree | src/infrastructure/views/TodoHierarchicView.ts:360-368 | as written, flattening succeeds exactly on a non-empty list with no empty subtask list anywhere, and then equals the corrected flattening |
| TodoView.EmptyListsThrow | src/infrastructure/views/TodoHierarchicView.ts:366 | as written, an empty list, or a todo with an empty subtask list, makes flattening throw |
| TodoView.NextLevelMembers | src/infrastructure/views/TodoHierarchicView.ts:362-366 | the next level holds exactly the descendants of the todos |
| TodoView.FlattenClosed | src/infrastructure/views/TodoHierarchicView.ts:360-368 | the flattening is closed under subtasks |
| TodoView.StatusIndex | src/infrastructure/views/TodoHierarchicView.ts:414-421 | each status has its place among the six status groups |
| TodoView.GroupsByStatusOrder | src/infrastructure/views/TodoHierarchicView.ts:411-427 | the status groups come in the fixed label order, and none is empty |
| TodoView.GroupsByStatusMembers | src/infrastructure/views/TodoHierarchicView.ts:411-427 | a todo in a status group has that group's status and is shown |
| TodoView.GroupsByStatusComplete | src/infrastructure/views/TodoHierarchicView.ts:411-427 | every shown todo is in the group of its status |
| TodoView.GroupsByAttributeSpec | src/infrastructure/views/TodoHierarchicView.ts:429-448 | one group per recorded value, in order, named by its string form, with the shown todos holding it; an "Empty" group exactly when a todo lacks the attribute |
| TodoView.FlaggedTodoUngrouped | src/infrastructure/views/TodoHierarchicView.ts:429-448 | a todo whose attribute is the flag `true` is in no group |
| TodoView.SelectedGroupSpec | src/infrastructure/views/TodoHierarchicView.ts:370-378 | the selected group exists exactly when the flattening as written does not throw (a non-empty list, no empty subtask list), and then holds exactly the shown selected todos at any depth |
| TodoView.TopLevelSpec | src/infrastructure/views/TodoHierarchicView.ts:468-487 | the selected group, then the due group, lead when enabled; the groups follow in order, only the non-empty ones unless `showEmpty` |
| TodoView.ChildrenSpec | src/infrastructure/views/TodoHierarchicView.ts:450-487 | the top level fails exactly when attribute grouping names an attribute without a value list, or when the selected or due group is on and the flattening throws (an empty folder, an empty subtask list); otherwise it arranges the chosen grouping |
| FileView.WithFilterSpec | src/infrastructure/views/FileHierarchicView.ts:133-138 | an empty list removes the attribute's filter, a non-empty one sets it, and other filters are untouched |
| FileView.FilteredFilesSpec | src/infrastructure/views/FileHierarchicView.ts:143-156 | the filtered files keep their order and are exactly those every filter accepts; no filters keep every file |
| FileView.MissingAttributeFilter | src/infrastructure/views/FileHierarchicView.ts:149-152 | a missing attribute passes a filter exactly when the filter lists `null` or the text "undefined" |
| FileView.FileTreeView.constructor | src/infrastructure/views/FileHierarchicView.ts:103-113 | the stored grouping, replaced by `["project"]` when it is not a list, and the stored filters or none |
| FileView.FileTreeView.MigrateV11 | src/infrastructure/views/FileHierarchicView.ts:109-113 | a grouping that is not a list becomes `["project"]`; a list is kept |
| FileView.FileTreeView.SetFilter | src/infrastructure/views/FileHierarchicView.ts:133-141 | the filters become the updated dictionary and the grouping is unchanged |
| FileView.BucketKeys | src/infrastructure/views/FileHierarchicView.ts:174-190 | the group keys are distinct and are exactly the non-empty string forms of the truthy values the files carry |
| FileView.BucketGroups | src/infrastructure/views/FileHierarchicView.ts:179-188 | each group holds, in order, exactly the files whose value has its key as string form |
| FileView.BucketNonMatching | src/infrastructure/views/FileHierarchicView.ts:176-181 | the non-matching files are, in order, those with a header and a falsy value |
| FileView.ItemsByAttributeSpec | src/infrastructure/views/FileHierarchicView.ts:170-208 | one group per key in code-unit order, each holding its files (or their grouping by the next names) then its attachments; then the non-matching files sorted by name, a permutation of them |
| FileView.FilePlacedOnce | src/infrastructure/views/FileHierarchicView.ts:174-190 | a file with a header lands among the non-matching files or in the one group of its value's string form |
| FileView.GetItemsByAttributeRec | src/infrastructure/views/FileHierarchicView.ts:170-208 | the method computes the grouping function |
| FileView.FillBuckets | src/infrastructure/views/FileHierarchicView.ts:174-190 | the `forEach` fills the buckets the bucket function describes |
| FileView.MapGroups | src/infrastructure/views/FileHierarchicView.ts:194-206 | the `map` over the sorted keys builds the group items, recursing on the remaining names |
| FsEventListener.RefreshesSpaced | src/infrastructure/eventListeners.ts/TodoItemFsEventListener.ts:11-17 | any two re-parses are more than 100 ms apart, the first one comes after 100, and re-parses happen only at attempt times, in order |
| FsEventListener.RefreshesStep | src/infrastructure/eventListeners.ts/TodoItemFsEventListener.ts:12-13 | an attempt re-parses exactly when it comes more than 100 ms after the last re-parse |
| FsEventListener.TodoItemFsEventListener.RefreshTodos | src/infrastructure/eventListeners.ts/TodoItemFsEventListener.ts:11-17 | on a re-parse, `lastUpdate` becomes `now`, the folder is parsed again and every callback is called in registration order; otherwise nothing changes |
| FsEventListener.TodoItemFsEventListener.Subscribe | src/infrastructure/eventListeners.ts/TodoItemFsEventListener.ts:19 | a callback is added after the registered ones |
| FsEventListener.TodoItemFsEventListener.OnFileCreated | src/infrastructure/eventListeners.ts/TodoItemFsEventListener.ts:21-23 | creating a file always attempts a re-parse |
| FsEventListener.TodoItemFsEventListener.OnFileSaved | src/infrastructure/eventListeners.ts/TodoItemFsEventListener.ts:25-28 | saving attempts a re-parse for a `.md` file name and changes nothing otherwise |
| FsEventListener.TodoItemFsEventListener.OnFileRenamed | src/infrastructure/eventListeners.ts/TodoItemFsEventListener.ts:30-32 | renaming a file always attempts a re-parse |
| FsEventListener.TodoItemFsEventListener.OnFileDeleted | src/infrastructure/eventListeners.ts/TodoItemFsEventListener.ts:34-36 | deleting a file always attempts a re-parse |
| MigrateFromPw.ExtNameMarkdown | other/migrate-from-pw.js:13 | an entry name has extension `.md` exactly when it ends in `.md` after at least one other character; a dot-file named `.md` has none |
| MigrateFromPw.MdFilesAreMarkdownLeaves | other/migrate-from-pw.js:6-18 | the result is the full paths of exactly the non-directory `.md` entries of the tree, in listing order, depth first: directories are never returned, and each such entry appears once |
| MigrateFromPw.MdFilesShape | other/migrate-from-pw.js:10-14 | every returned path lies under the folder and ends in `.md` after at least one other character |
| MigrateFromPw.ListAllMdFiles | other/migrate-from-pw.js:6-18 | the loop, with its recursion into directories, computes the walk function |

## Left out

- `LineOperations.toTodo`, `yaml.parse` and `parseFile` are defined outside the modelled files and are function parameters. A `yaml.parse` that throws is `None`.
- `localeCompare` (TodoHierarchicView.ts:350, FileHierarchicView.ts:192, FolderParser.ts:65) is a rank function `collate`. Locale collation is out of reach, and equal ranks sort as equal.
- `Text.StrLe` orders strings by character. JavaScript's default `sort()` compares UTF-16 code units, so the two differ for characters outside the Basic Multilingual Plane.
- `path.join` is modelled as `folder + "/" + name`, without normalisation of `.`, `..` or repeated separators. Entry names from a directory listing are taken to hold no `/`.
- Inherited object keys: JavaScript `{}` dictionaries inherit `Object.prototype` keys such as `toString` and `constructor`, and Dafny maps do not. An attribute named `toString` or `constructor` therefore behaves differently here: the source throws a `TypeError` in `parseFolder`, `completeAttributeValue` and `getItemsByAttributeRec`, or leaves a flag named `toString` out of the name list, where the model indexes it like any other name.
- Caret offsets: strings here are sequences of Unicode scalar values, while the caret `position` of the completion functions is a UTF-16 offset. A character outside the Basic Multilingual Plane before the caret shifts the two by one, and that shift is not modelled.
- Object key order: attribute dictionaries are sequences in insertion order. JavaScript lists integer-like keys first, and that is not modelled. Where the source sorts the keys afterwards, this makes no difference.
- A YAML header that parses to a scalar or a list has no attributes by name here. Number values are integers, since YAML floats are not modelled.
- The code is taken to run in strict mode. Assigning a default onto a primitive `config.folders` is an error in `ConfigFileLoader.FoldersOf`.
- `getDueGroup` (TodoHierarchicView.ts:379-409) reads the clock and parses ISO dates. Its todos are a parameter of `TodoView.Children`.
- Storage reads and writes, the setters and getters of the views, the event emitters and `refresh`, the tree-item labels and descriptions, `toggleCollapsed` and `getChildren` below the top level are UI plumbing and are not modelled.
- `FileOperations.searchFiles` and `consolidateAttribute` are not part of this model: they are absent from `src/domain/FileOperations.ts`.
- Subtask nesting in `findTodos`, `addAttributes` propagation, attachment discovery and the `files` field of the parsed folder are not part of this model: no modelled source file implements them. Attachments by value are a parameter of the file view.
- Pomodoro timers and the status bar depend on wall-clock time and floating point, and are not modelled.
- The top-level loop of the migration script prints each path. That I/O is left out, and `listAllMdFiles` is modelled on an abstract directory tree.
- FsEventListener.TodoItemFsEventListener.RefreshTodos: `Date.now()` is read twice, and the model takes both readings as one `now`. The callbacks are identifiers recorded in `calls`, so their own effects are not modelled.
- TodoView.Groom: the attribute sort uses the corrected comparator of the third row under "## Findings", and so keeps todos that both lack the attribute, or hold the same flag, in input order. The comparator as written is inconsistent on exactly those pairs, and the source leaves their order to the JavaScript engine; `SortComparatorTotal`, `GroomSorted`, `GroomAttributeOrder`, `GroomStable` and `TodoView.TodoTreeView.GroomTodos` describe the corrected sort.
- TodoView.Children: it does not capture that sorting with no filter active reorders the folder's own todo array in place. `TodoView.TodoTreeView.GroomTodos` models that aliasing.
- FileView.GetItemsByAttributeRec: a truthy value whose string form is empty (an empty list) is dropped from the grouping, as in the source.
- FileParser.FromHeader: a header that parses to `null` is an error, so every parsed file has attributes. Reading the attributes in `getFilteredFiles` therefore never throws here.
- Behaviours of the code a reader might not expect; the model follows the code:
  - `getFileProperties` recognises only a `---\n` opening, not `---\r\n`.
  - a header that fails to parse throws rather than degrading to `{}`.
  - `findTodos` builds no subtask tree.
  - value lists drop only the flag `true`, keeping `false` and `""`.
  - the name list is sorted with `localeCompare`.
  - only todo attributes are indexed.
  - the listener drops an event within 100 ms of the last re-parse, with no later re-parse to catch up.

## Findings

| source | as written | input that shows it | evidently intended | confidence | as-written member | corrected member |
|---|---|---|---|---|---|---|
| src/domain/FolderParser.ts:75 | `!find(value => value === project)` is also true when the listed value found is falsy | two todos whose project is `""` (no `project` attribute) | each project listed once | high, not executed | FolderParser.FalsyProjectRepeated | FolderParser.IntendedFolderProjects |
| src/infrastructure/views/TodoHierarchicView.ts:360-368 | `reduce` without an initial value throws on an empty array | an empty todo list, or any todo whose `subtasks` is `[]` | the empty list contributes nothing | high, not executed | TodoView.EmptyListsThrow | TodoView.FlattenClosed |
| src/infrastructure/views/TodoHierarchicView.ts:333-348 | a todo without the attribute compares greater than anything, in both argument orders | two todos that both lack the sort attribute: `compare(a, b)` and `compare(b, a)` are both the direction multiplier; likewise two todos both holding `true`, or both `false`, are each smaller than the other | todos without the attribute tie with each other, as do equal flags | high, not executed | TodoView.AsWrittenNotAnOrder | TodoView.AttributeLeTotal |
