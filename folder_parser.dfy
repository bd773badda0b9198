/** The folder walk and the attribute index built over every todo of the
    workspace (src/domain/FolderParser.ts). */
module FolderParser {
  import opened Results
  import opened Text
  import opened Seqs
  import opened Sorting
  import opened Model

  /** A directory tree as `readdirSync`/`lstatSync`/`readFileSync` see it:
      entries in listing order. */
  datatype Node = File(content: string) | Dir(entries: seq<Entry>)
  datatype Entry = Entry(name: string, node: Node)

  /** The per-file parser (`fileParser.parseFile(content, path)`), which is
      not part of this model. */
  type FileParse = (string, string) -> seq<TodoItem>

  /** `parseFile`: only paths ending in `.md` are read and parsed. */
  function ParseFile(path: string, content: string, parse: FileParse): (r: seq<TodoItem>)
    ensures !EndsWith(path, ".md") ==> r == []
  {
    if !EndsWith(path, ".md") then [] else parse(content, path)
  }

  /** `findFolderTodos`: the templates folder (compared by exact path) yields
      nothing; otherwise the per-entry results in listing order. */
  function FindFolderTodos(folder: string, entries: seq<Entry>, templates: string, parse: FileParse): seq<TodoItem>
    decreases entries, 1
  {
    if folder == templates then [] else EntriesTodos(folder, entries, templates, parse)
  }

  function EntriesTodos(folder: string, entries: seq<Entry>, templates: string, parse: FileParse): seq<TodoItem>
    decreases entries, 0
  {
    if entries == [] then []
    else EntryTodos(folder, entries[0], templates, parse) + EntriesTodos(folder, entries[1..], templates, parse)
  }

  function EntryTodos(folder: string, e: Entry, templates: string, parse: FileParse): seq<TodoItem>
    decreases e
  {
    var path := JoinPath(folder, e.name);
    match e.node
    case Dir(es) => FindFolderTodos(path, es, templates, parse)
    case File(content) => ParseFile(path, content, parse)
  }

  /** The files the walk reads, as (path, content) pairs in the order it
      reads them. */
  function ReadFiles(folder: string, entries: seq<Entry>, templates: string): seq<(string, string)>
    decreases entries, 1
  {
    if folder == templates then [] else EntriesRead(folder, entries, templates)
  }

  function EntriesRead(folder: string, entries: seq<Entry>, templates: string): seq<(string, string)>
    decreases entries, 0
  {
    if entries == [] then []
    else EntryRead(folder, entries[0], templates) + EntriesRead(folder, entries[1..], templates)
  }

  function EntryRead(folder: string, e: Entry, templates: string): seq<(string, string)>
    decreases e
  {
    var path := JoinPath(folder, e.name);
    match e.node
    case Dir(es) => ReadFiles(path, es, templates)
    case File(content) => if EndsWith(path, ".md") then [(path, content)] else []
  }

  /** Parsing every read file in order and concatenating. */
  function ParseAll(files: seq<(string, string)>, parse: FileParse): seq<TodoItem> {
    if files == [] then [] else parse(files[0].1, files[0].0) + ParseAll(files[1..], parse)
  }

  lemma {:induction false} ParseAllAppend(a: seq<(string, string)>, b: seq<(string, string)>, parse: FileParse)
    ensures ParseAll(a + b, parse) == ParseAll(a, parse) + ParseAll(b, parse)
  {
    if a != [] {
      assert (a + b)[0] == a[0];
      assert (a + b)[1..] == a[1..] + b;
      ParseAllAppend(a[1..], b, parse);
    } else {
      assert a + b == b;
    }
  }

  /** The todos of a folder are the parses of the files it reads,
      concatenated in reading order (depth first, listing order). */
  lemma {:induction false} WalkParsesReadFiles(folder: string, entries: seq<Entry>, templates: string, parse: FileParse)
    ensures FindFolderTodos(folder, entries, templates, parse) == ParseAll(ReadFiles(folder, entries, templates), parse)
    decreases entries, 1
  {
    if folder != templates {
      EntriesParseReadFiles(folder, entries, templates, parse);
    }
  }

  lemma {:induction false} EntriesParseReadFiles(folder: string, entries: seq<Entry>, templates: string, parse: FileParse)
    ensures EntriesTodos(folder, entries, templates, parse) == ParseAll(EntriesRead(folder, entries, templates), parse)
    decreases entries, 0
  {
    if entries != [] {
      var e := entries[0];
      var path := JoinPath(folder, e.name);
      if e.node.Dir? {
        WalkParsesReadFiles(path, e.node.entries, templates, parse);
      } else if EndsWith(path, ".md") {
        assert ParseAll([(path, e.node.content)], parse) == parse(e.node.content, path);
      }
      EntriesParseReadFiles(folder, entries[1..], templates, parse);
      ParseAllAppend(EntryRead(folder, e, templates), EntriesRead(folder, entries[1..], templates), parse);
    }
  }

  /** Only Markdown files are read. */
  lemma {:induction false} ReadFilesAreMarkdown(folder: string, entries: seq<Entry>, templates: string)
    ensures forall f :: f in ReadFiles(folder, entries, templates) ==> EndsWith(f.0, ".md")
    decreases entries, 1
  {
    if folder != templates {
      EntriesReadMarkdown(folder, entries, templates);
    }
  }

  lemma {:induction false} EntriesReadMarkdown(folder: string, entries: seq<Entry>, templates: string)
    ensures forall f :: f in EntriesRead(folder, entries, templates) ==> EndsWith(f.0, ".md")
    decreases entries, 0
  {
    if entries != [] {
      var e := entries[0];
      if e.node.Dir? {
        ReadFilesAreMarkdown(JoinPath(folder, e.name), e.node.entries, templates);
      }
      EntriesReadMarkdown(folder, entries[1..], templates);
    }
  }

  /** Entry names are plain file names. */
  ghost predicate PlainNames(entries: seq<Entry>) {
    forall i :: 0 <= i < |entries| ==>
      '/' !in entries[i].name && (entries[i].node.Dir? ==> PlainNames(entries[i].node.entries))
  }

  /** Nothing below the templates folder is read, provided the walk does not
      start inside it. */
  lemma {:induction false} NothingReadUnderTemplates(folder: string, entries: seq<Entry>, templates: string)
    requires PlainNames(entries)
    requires !StartsWith(folder + "/", templates + "/")
    ensures forall f :: f in ReadFiles(folder, entries, templates) ==> !StartsWith(f.0, templates + "/")
    decreases entries, 1
  {
    if folder != templates {
      EntriesNotUnderTemplates(folder, entries, templates);
    }
  }

  lemma {:induction false} EntriesNotUnderTemplates(folder: string, entries: seq<Entry>, templates: string)
    requires PlainNames(entries)
    requires !StartsWith(folder + "/", templates + "/")
    ensures forall f :: f in EntriesRead(folder, entries, templates) ==> !StartsWith(f.0, templates + "/")
    decreases entries, 0
  {
    if entries != [] {
      var e := entries[0];
      var path := JoinPath(folder, e.name);
      JoinNotUnder(folder, e.name, templates);
      if e.node.Dir? {
        var es := e.node.entries;
        assert PlainNames(es) by { assert entries[0] == e; }
        if path != templates {
          SlashNotUnder(path, templates);
          NothingReadUnderTemplates(path, es, templates);
        }
      }
      assert PlainNames(entries[1..]) by {
        forall i | 0 <= i < |entries| - 1 ensures entries[1..][i] == entries[i + 1] { }
      }
      EntriesNotUnderTemplates(folder, entries[1..], templates);
      assert forall f :: f in EntryRead(folder, e, templates) ==> !StartsWith(f.0, templates + "/");
    }
  }

  /** Joining a plain name onto a folder outside the templates folder gives a
      path outside it. */
  lemma JoinNotUnder(folder: string, name: string, templates: string)
    requires '/' !in name
    requires !StartsWith(folder + "/", templates + "/")
    ensures !StartsWith(JoinPath(folder, name), templates + "/")
  {
    var p, t := JoinPath(folder, name), templates + "/";
    if |t| <= |folder| + 1 {
      assert p[..|t|] == (folder + "/")[..|t|];
    } else if |t| <= |p| {
      var k := |t| - 1 - |folder| - 1;
      assert p[|t| - 1] == name[k];
      assert name[k] in name;
    }
  }

  /** A path outside the templates folder, other than the folder itself,
      stays outside once a separator is appended. */
  lemma SlashNotUnder(path: string, templates: string)
    requires path != templates
    requires !StartsWith(path, templates + "/")
    ensures !StartsWith(path + "/", templates + "/")
  {
    var t := templates + "/";
    if |t| <= |path| {
      assert (path + "/")[..|t|] == path[..|t|];
    } else if |t| == |path| + 1 {
      assert (path + "/")[..|t|] == path + "/";
      assert (path + "/")[..|path|] == path;
      assert t[..|templates|] == templates;
    }
  }

  /** The index `parseFolder` fills in: attribute names in the order they
      are first met (`Object.keys` order), and per name the values met. */
  datatype ValueIndex = ValueIndex(names: seq<string>, values: map<string, seq<AttrValue>>)

  /** `parseFolder`'s result (its own three-field record). */
  datatype ParsedFolder = ParsedFolder(todos: seq<TodoItem>, attributes: seq<string>, attributeValues: map<string, seq<AttrValue>>)

  /** Recording one attribute of one todo: the name gets a list if it has
      none, and the value is pushed unless it is `true` or already listed. */
  function AddValue(ix: ValueIndex, name: string, v: AttrValue): ValueIndex {
    var known := Known(ix, name);
    var list := known.values[name];
    if v != Bool(true) && v !in list then known.(values := known.values[name := list + [v]]) else known
  }

  /** Recording the attributes of one todo in key order. */
  function AddAttributes(ix: ValueIndex, attrs: seq<(string, AttrValue)>): ValueIndex {
    if attrs == [] then ix
    else AddValue(AddAttributes(ix, attrs[..|attrs| - 1]), attrs[|attrs| - 1].0, attrs[|attrs| - 1].1)
  }

  /** The index after the `forEach` over `todos`. */
  function IndexTodos(todos: seq<TodoItem>): ValueIndex {
    if todos == [] then ValueIndex([], map[])
    else AddAttributes(IndexTodos(todos[..|todos| - 1]), todos[|todos| - 1].attributes)
  }

  /** Every (name, value) attribute pair of the todos, in visiting order. */
  ghost function AllPairs(todos: seq<TodoItem>): seq<(string, AttrValue)> {
    if todos == [] then [] else AllPairs(todos[..|todos| - 1]) + todos[|todos| - 1].attributes
  }

  /** `ix` is the index of exactly the pairs `pairs`: names without
      repetitions, a list for each name met, and each list holding, once, the
      non-`true` values met under that name. */
  ghost predicate Indexes(ix: ValueIndex, pairs: seq<(string, AttrValue)>) {
    NamesIndexed(ix, pairs) && ValuesIndexed(ix, pairs)
  }

  ghost predicate NamesIndexed(ix: ValueIndex, pairs: seq<(string, AttrValue)>) {
    && Distinct(ix.names)
    && (forall n :: n in ix.values <==> n in ix.names)
    && (forall n :: n in ix.values <==> exists v :: (n, v) in pairs)
  }

  ghost predicate ValuesIndexed(ix: ValueIndex, pairs: seq<(string, AttrValue)>) {
    && (forall n :: n in ix.values ==> Distinct(ix.values[n]))
    && (forall n, v :: n in ix.values ==> (v in ix.values[n] <==> v != Bool(true) && (n, v) in pairs))
  }

  /** The name `name` gets a list when it has none. */
  function Known(ix: ValueIndex, name: string): ValueIndex {
    if name in ix.values then ix else ValueIndex(ix.names + [name], ix.values[name := []])
  }

  lemma AddValueNames(ix: ValueIndex, pairs: seq<(string, AttrValue)>, name: string, v: AttrValue)
    requires NamesIndexed(ix, pairs)
    ensures NamesIndexed(AddValue(ix, name, v), pairs + [(name, v)])
  {
    var ps := pairs + [(name, v)];
    assert forall p :: p in ps <==> p in pairs || p == (name, v);
    assert (name, v) in ps;
    var r := AddValue(ix, name, v);
    assert r.names == Known(ix, name).names && r.values.Keys == Known(ix, name).values.Keys;
    if name !in ix.values {
      assert name !in ix.names;
    }
  }

  lemma AddValueValues(ix: ValueIndex, pairs: seq<(string, AttrValue)>, name: string, v: AttrValue)
    requires NamesIndexed(ix, pairs) && ValuesIndexed(ix, pairs)
    ensures ValuesIndexed(AddValue(ix, name, v), pairs + [(name, v)])
  {
    var ps := pairs + [(name, v)];
    assert forall p :: p in ps <==> p in pairs || p == (name, v);
    var known := Known(ix, name);
    if name !in ix.values {
      assert forall w :: (name, w) !in pairs;
    }
    assert ValuesIndexed(known, pairs);
    var list := known.values[name];
    var r := AddValue(ix, name, v);
    assert r.values.Keys == known.values.Keys;
    assert forall n :: n in r.values && n != name ==> r.values[n] == known.values[n];
    assert forall w :: w in r.values[name] <==> w in list || (w == v && v != Bool(true));
    forall n, w | n in r.values
      ensures w in r.values[n] <==> w != Bool(true) && (n, w) in ps
    {
      if n != name {
        assert r.values[n] == known.values[n];
      }
    }
  }

  /** Recording a sequence of pairs into the empty index indexes exactly
      those pairs. */
  lemma {:induction false} AddAttributesIndexes(pairs: seq<(string, AttrValue)>)
    ensures Indexes(AddAttributes(ValueIndex([], map[]), pairs), pairs)
  {
    if pairs != [] {
      var init := pairs[..|pairs| - 1];
      AddAttributesIndexes(init);
      var ix := AddAttributes(ValueIndex([], map[]), init);
      AddValueNames(ix, init, pairs[|pairs| - 1].0, pairs[|pairs| - 1].1);
      AddValueValues(ix, init, pairs[|pairs| - 1].0, pairs[|pairs| - 1].1);
      assert init + [pairs[|pairs| - 1]] == pairs;
    }
  }

  lemma {:induction false} AddAttributesAppend(ix: ValueIndex, a: seq<(string, AttrValue)>, b: seq<(string, AttrValue)>)
    ensures AddAttributes(ix, a + b) == AddAttributes(AddAttributes(ix, a), b)
  {
    if b == [] {
      assert a + b == a;
    } else {
      assert (a + b)[..|a + b| - 1] == a + b[..|b| - 1];
      AddAttributesAppend(ix, a, b[..|b| - 1]);
    }
  }

  /** The todo-by-todo index is the index of all their pairs. */
  lemma {:induction false} IndexTodosPairs(todos: seq<TodoItem>)
    ensures IndexTodos(todos) == AddAttributes(ValueIndex([], map[]), AllPairs(todos))
  {
    if todos != [] {
      var init := todos[..|todos| - 1];
      IndexTodosPairs(init);
      AddAttributesAppend(ValueIndex([], map[]), AllPairs(init), todos[|todos| - 1].attributes);
    }
  }

  lemma {:induction false} AllPairsMembers(todos: seq<TodoItem>)
    ensures forall p :: p in AllPairs(todos) <==> exists i :: 0 <= i < |todos| && p in todos[i].attributes
  {
    if todos != [] {
      var init := todos[..|todos| - 1];
      AllPairsMembers(init);
      assert forall i :: 0 <= i < |init| ==> init[i] == todos[i];
    }
  }

  /** The index of the todos lists, once each, exactly the attribute names
      they carry. */
  lemma IndexNames(todos: seq<TodoItem>)
    ensures var ix := IndexTodos(todos);
      && Distinct(ix.names)
      && (forall n :: n in ix.values <==> n in ix.names)
      && (forall n :: n in ix.values <==> exists i, v :: 0 <= i < |todos| && (n, v) in todos[i].attributes)
  {
    IndexTodosPairs(todos);
    AddAttributesIndexes(AllPairs(todos));
    AllPairsMembers(todos);
  }

  /** The index of the todos lists, once each, exactly the non-`true` values
      they carry under each name. */
  lemma IndexValues(todos: seq<TodoItem>)
    ensures var ix := IndexTodos(todos);
      && (forall n :: n in ix.values ==> Distinct(ix.values[n]))
      && (forall n, v :: n in ix.values ==>
            (v in ix.values[n] <==> v != Bool(true) && exists i :: 0 <= i < |todos| && (n, v) in todos[i].attributes))
  {
    IndexTodosPairs(todos);
    AddAttributesIndexes(AllPairs(todos));
    AllPairsMembers(todos);
  }

  /** `if (!attributes[key]) attributes[key] = []`. */
  function EnsureKey(values: map<string, seq<AttrValue>>, key: string): (r: map<string, seq<AttrValue>>)
    ensures key in r && r.Keys == values.Keys + {key}
    ensures forall k :: k in values ==> r[k] == values[k]
    ensures key !in values ==> r[key] == []
  {
    if key in values then values else values[key := []]
  }

  /** One step of the project pass: a defined project not yet listed is
      pushed onto the `project` list. */
  function AddProject(values: map<string, seq<AttrValue>>, p: Option<AttrValue>): map<string, seq<AttrValue>>
    requires "project" in values
  {
    if p.Some? && p.value !in values["project"] then values["project" := values["project"] + [p.value]] else values
  }

  function AddProjects(values: map<string, seq<AttrValue>>, todos: seq<TodoItem>): (r: map<string, seq<AttrValue>>)
    requires "project" in values
    ensures "project" in r
  {
    if todos == [] then values
    else AddProject(AddProjects(values, todos[..|todos| - 1]), todos[|todos| - 1].project)
  }

  /** One step of the project pass as written: `!find(...)` is also true
      when the listed value found is falsy, so an empty-string or `false`
      project is pushed again on every todo carrying it. */
  function AddProjectAsWritten(values: map<string, seq<AttrValue>>, p: Option<AttrValue>): map<string, seq<AttrValue>>
    requires "project" in values
  {
    if p.Some? && (p.value !in values["project"] || !TruthyValue(p.value))
    then values["project" := values["project"] + [p.value]]
    else values
  }

  function AddProjectsAsWritten(values: map<string, seq<AttrValue>>, todos: seq<TodoItem>): (r: map<string, seq<AttrValue>>)
    requires "project" in values
    ensures "project" in r
  {
    if todos == [] then values
    else AddProjectAsWritten(AddProjectsAsWritten(values, todos[..|todos| - 1]), todos[|todos| - 1].project)
  }

  /** A value `find` reports as found. */
  predicate TruthyValue(v: AttrValue) {
    Truthy(Some(v))
  }

  /** Two dictionaries that agree outside `project` and whose `project`
      lists hold the same values, and the same truthy values in order. */
  ghost predicate SameProjects(a: map<string, seq<AttrValue>>, c: map<string, seq<AttrValue>>)
    requires "project" in a && "project" in c
  {
    && a.Keys == c.Keys
    && (forall k :: k in a && k != "project" ==> a[k] == c[k])
    && (forall v :: v in a["project"] <==> v in c["project"])
    && Filter(a["project"], TruthyValue) == Filter(c["project"], TruthyValue)
  }

  lemma ProjectStepAgree(a: map<string, seq<AttrValue>>, c: map<string, seq<AttrValue>>, p: Option<AttrValue>)
    requires "project" in a && "project" in c && SameProjects(a, c)
    ensures SameProjects(AddProjectAsWritten(a, p), AddProject(c, p))
    ensures a == c && (p.Some? ==> TruthyValue(p.value)) ==> AddProjectAsWritten(a, p) == AddProject(c, p)
  {
    if p.Some? {
      FilterAppend(a["project"], [p.value], TruthyValue);
      FilterAppend(c["project"], [p.value], TruthyValue);
    }
  }

  /** The pass as written and the intended pass leave the same dictionary
      outside `project`; their `project` lists hold the same values, and the
      same truthy values in the same order, so the written pass differs only
      by repeating falsy projects. Without a falsy project they agree. */
  lemma {:induction false} ProjectPassesAgree(values: map<string, seq<AttrValue>>, todos: seq<TodoItem>)
    requires "project" in values
    ensures SameProjects(AddProjectsAsWritten(values, todos), AddProjects(values, todos))
    ensures (forall i :: 0 <= i < |todos| && todos[i].project.Some? ==> TruthyValue(todos[i].project.value)) ==>
      AddProjectsAsWritten(values, todos) == AddProjects(values, todos)
  {
    if todos != [] {
      var init, p := todos[..|todos| - 1], todos[|todos| - 1].project;
      ProjectPassesAgree(values, init);
      ProjectStepAgree(AddProjectsAsWritten(values, init), AddProjects(values, init), p);
      if forall i :: 0 <= i < |todos| && todos[i].project.Some? ==> TruthyValue(todos[i].project.value) {
        assert forall i :: 0 <= i < |init| ==> init[i] == todos[i];
      }
    }
  }

  /** The todos carrying the project `v`. */
  function WithProject(v: AttrValue): TodoItem -> bool {
    (t: TodoItem) => t.project == Some(v)
  }

  /** As written, a falsy project is pushed once for every todo carrying it,
      whatever the list already holds. */
  lemma {:induction false} FalsyProjectRepeated(values: map<string, seq<AttrValue>>, todos: seq<TodoItem>, v: AttrValue)
    requires "project" in values && !TruthyValue(v)
    ensures multiset(AddProjectsAsWritten(values, todos)["project"])[v]
      == multiset(values["project"])[v] + |Filter(todos, WithProject(v))|
  {
    if todos != [] {
      var init, t := todos[..|todos| - 1], todos[|todos| - 1];
      FalsyProjectRepeated(values, init, v);
      assert todos == init + [t];
      FilterAppend(init, [t], WithProject(v));
    }
  }

  /** The project pass only touches the `project` list. */
  lemma {:induction false} AddProjectsFrame(values: map<string, seq<AttrValue>>, todos: seq<TodoItem>)
    requires "project" in values
    ensures var r := AddProjects(values, todos);
      && r.Keys == values.Keys
      && (forall k :: k in values && k != "project" ==> r[k] == values[k])
  {
    if todos != [] {
      AddProjectsFrame(values, todos[..|todos| - 1]);
    }
  }

  /** The project pass keeps the `project` list free of repetitions and
      leaves in it exactly the projects it held and the defined projects of
      the todos. */
  lemma {:induction false} AddProjectsSpec(values: map<string, seq<AttrValue>>, todos: seq<TodoItem>)
    requires "project" in values && Distinct(values["project"])
    ensures var r := AddProjects(values, todos);
      && Distinct(r["project"])
      && (forall v :: v in r["project"] <==>
            v in values["project"] || exists i :: 0 <= i < |todos| && todos[i].project == Some(v))
  {
    if todos != [] {
      var init := todos[..|todos| - 1];
      AddProjectsSpec(values, init);
      assert forall i :: 0 <= i < |init| ==> init[i] == todos[i];
    }
  }

  /** The dictionary before the project pass: the index, with a list for
      `project` and `selected` ensured. */
  function StartValues(todos: seq<TodoItem>): (r: map<string, seq<AttrValue>>)
    ensures "project" in r && "selected" in r
  {
    EnsureKey(EnsureKey(IndexTodos(todos).values, "project"), "selected")
  }

  /** The result of `parseFolder` on the todos the walk found: names sorted
      with `localeCompare` (here the rank `collate`), taken before the
      `project` and `selected` lists are added to the value dictionary, and
      the project pass as written. */
  function ParsedFolderOf(todos: seq<TodoItem>, collate: string -> int): ParsedFolder {
    ParsedFolder(todos, InsertionSort(IndexTodos(todos).names, ByKey(collate)),
      AddProjectsAsWritten(StartValues(todos), todos))
  }

  /** The same, with the intended project pass that lists each project once. */
  function IntendedParsedFolder(todos: seq<TodoItem>, collate: string -> int): ParsedFolder {
    ParsedFolder(todos, InsertionSort(IndexTodos(todos).names, ByKey(collate)),
      AddProjects(StartValues(todos), todos))
  }

  /** The list under `project` before the pass holds no repetitions. */
  lemma {:induction false} StartValuesDistinct(todos: seq<TodoItem>)
    ensures forall n :: n in StartValues(todos) ==> Distinct(StartValues(todos)[n])
  {
    IndexValues(todos);
    assert forall m :: m in IndexTodos(todos).values ==> Distinct(IndexTodos(todos).values[m]);
  }

  /** The name list is the sorted list of every attribute name carried by
      some todo, each once; `project` and `selected` are in it only when some
      todo carries them. */
  lemma FolderNames(todos: seq<TodoItem>, collate: string -> int)
    ensures var names := ParsedFolderOf(todos, collate).attributes;
      && Sorted(names, ByKey(collate))
      && Distinct(names)
      && forall n :: n in names <==> exists i, v :: 0 <= i < |todos| && (n, v) in todos[i].attributes
  {
    var ix := IndexTodos(todos);
    IndexNames(todos);
    ByKeyTotal(collate);
    InsertionSortSorted(ix.names, ByKey(collate));
    InsertionSortPermutes(ix.names, ByKey(collate));
    DistinctPermutation(ix.names, InsertionSort(ix.names, ByKey(collate)));
    var names := InsertionSort(ix.names, ByKey(collate));
    assert forall n :: n in names <==> n in multiset(names);
    assert forall n :: n in ix.names <==> n in multiset(ix.names);
  }

  /** The value dictionary has a list for every name plus `project` and
      `selected`. */
  lemma FolderKeys(todos: seq<TodoItem>, collate: string -> int)
    ensures var pf := ParsedFolderOf(todos, collate);
      forall n :: n in pf.attributeValues <==> n in pf.attributes || n == "project" || n == "selected"
  {
    IndexNames(todos);
    FolderNames(todos, collate);
    AddProjectsFrame(StartValues(todos), todos);
    ProjectPassesAgree(StartValues(todos), todos);
  }

  /** The intended dictionary: no list has repetitions, and every defined
      project of a todo is listed exactly once under `project`; it is what
      `parseFolder` returns whenever no todo's project is falsy. */
  lemma IntendedFolderProjects(todos: seq<TodoItem>, collate: string -> int)
    ensures var values := IntendedParsedFolder(todos, collate).attributeValues;
      && (forall n :: n in values ==> Distinct(values[n]))
      && (forall i :: 0 <= i < |todos| && todos[i].project.Some? ==> multiset(values["project"])[todos[i].project.value] == 1)
      && ((forall i :: 0 <= i < |todos| && todos[i].project.Some? ==> TruthyValue(todos[i].project.value)) ==>
            IntendedParsedFolder(todos, collate) == ParsedFolderOf(todos, collate))
  {
    var start := StartValues(todos);
    StartValuesDistinct(todos);
    assert Distinct(start["project"]);
    AddProjectsFrame(start, todos);
    AddProjectsSpec(start, todos);
    ProjectPassesAgree(start, todos);
    var list := AddProjects(start, todos)["project"];
    forall i | 0 <= i < |todos| && todos[i].project.Some?
      ensures multiset(list)[todos[i].project.value] == 1
    {
      DistinctOnce(list, todos[i].project.value);
    }
  }

  /** No list other than `project` has repetitions, nor has the list of
      truthy projects; a falsy project is listed once per todo carrying it
      on top of its attribute occurrences. */
  lemma FolderListsDistinct(todos: seq<TodoItem>, collate: string -> int)
    ensures var values := ParsedFolderOf(todos, collate).attributeValues;
      && (forall n :: n in values && n != "project" ==> Distinct(values[n]))
      && Distinct(Filter(values["project"], TruthyValue))
      && (forall v :: !TruthyValue(v) ==>
            multiset(values["project"])[v] == multiset(StartValues(todos)["project"])[v] + |Filter(todos, WithProject(v))|)
  {
    var start := StartValues(todos);
    StartValuesDistinct(todos);
    assert Distinct(start["project"]);
    AddProjectsFrame(start, todos);
    AddProjectsSpec(start, todos);
    ProjectPassesAgree(start, todos);
    FilterDistinct(AddProjects(start, todos)["project"], TruthyValue);
    forall v | !TruthyValue(v)
      ensures multiset(AddProjectsAsWritten(start, todos)["project"])[v]
        == multiset(start["project"])[v] + |Filter(todos, WithProject(v))|
    {
      FalsyProjectRepeated(start, todos, v);
    }
  }

  /** Outside `project`, a list holds exactly the non-`true` values the todos
      carry under its name. */
  lemma FolderValues(todos: seq<TodoItem>, collate: string -> int)
    ensures var pf := ParsedFolderOf(todos, collate);
      forall n, v :: n in pf.attributeValues && n != "project" ==>
        (v in pf.attributeValues[n] <==> v != Bool(true) && exists i :: 0 <= i < |todos| && (n, v) in todos[i].attributes)
  {
    var ix := IndexTodos(todos);
    IndexNames(todos);
    IndexValues(todos);
    var values := StartValues(todos);
    AddProjectsFrame(values, todos);
    ProjectPassesAgree(values, todos);
    var r := AddProjectsAsWritten(values, todos);
    forall n, v | n in r && n != "project"
      ensures v in r[n] <==> v != Bool(true) && exists i :: 0 <= i < |todos| && (n, v) in todos[i].attributes
    {
      if n !in ix.values {
        assert r[n] == [];
      }
    }
  }

  /** `project` and `selected` always have a list; every defined project of a
      todo is listed under `project`, and a truthy one exactly once. */
  lemma FolderProjects(todos: seq<TodoItem>, collate: string -> int)
    ensures var values := ParsedFolderOf(todos, collate).attributeValues;
      && "project" in values && "selected" in values
      && (forall i :: 0 <= i < |todos| && todos[i].project.Some? ==> todos[i].project.value in values["project"])
      && (forall i :: 0 <= i < |todos| && todos[i].project.Some? && TruthyValue(todos[i].project.value) ==>
            multiset(values["project"])[todos[i].project.value] == 1)
  {
    var start := StartValues(todos);
    StartValuesDistinct(todos);
    assert Distinct(start["project"]);
    IntendedFolderProjects(todos, collate);
    AddProjectsFrame(start, todos);
    AddProjectsSpec(start, todos);
    ProjectPassesAgree(start, todos);
    var a, c := AddProjectsAsWritten(start, todos)["project"], AddProjects(start, todos)["project"];
    forall i | 0 <= i < |todos| && todos[i].project.Some? && TruthyValue(todos[i].project.value)
      ensures multiset(a)[todos[i].project.value] == 1
    {
      var v := todos[i].project.value;
      FilterMultiset(a, TruthyValue, v);
      FilterMultiset(c, TruthyValue, v);
    }
  }

  /** The `project` list holds nothing but the todos' defined projects and
      their non-`true` `project` attribute values. */
  lemma FolderProjectsFrom(todos: seq<TodoItem>, collate: string -> int)
    ensures var values := ParsedFolderOf(todos, collate).attributeValues;
      && "project" in values
      && (forall v :: v in values["project"] ==>
            (exists i :: 0 <= i < |todos| && todos[i].project == Some(v)) ||
            (v != Bool(true) && exists i :: 0 <= i < |todos| && ("project", v) in todos[i].attributes))
  {
    var ix := IndexTodos(todos);
    IndexValues(todos);
    var values := StartValues(todos);
    StartValuesDistinct(todos);
    assert Distinct(values["project"]);
    AddProjectsSpec(values, todos);
    ProjectPassesAgree(values, todos);
    var list := AddProjectsAsWritten(values, todos)["project"];
    assert ParsedFolderOf(todos, collate).attributeValues["project"] == list;
    forall v | v in list
      ensures (exists i :: 0 <= i < |todos| && todos[i].project == Some(v)) ||
              (v != Bool(true) && exists i :: 0 <= i < |todos| && ("project", v) in todos[i].attributes)
    {
      if v in values["project"] {
        assert "project" in ix.values && v in ix.values["project"];
      }
    }
  }

  /** The `forEach` over the todos that fills the dictionary, key by key. */
  method IndexAttributes(todos: seq<TodoItem>) returns (names: seq<string>, values: map<string, seq<AttrValue>>)
    ensures ValueIndex(names, values) == IndexTodos(todos)
  {
    names, values := [], map[];
    for i := 0 to |todos|
      invariant ValueIndex(names, values) == IndexTodos(todos[..i])
    {
      var attrs := todos[i].attributes;
      for j := 0 to |attrs|
        invariant ValueIndex(names, values) == AddAttributes(IndexTodos(todos[..i]), attrs[..j])
      {
        var (name, v) := attrs[j];
        ghost var before := ValueIndex(names, values);
        if name !in values {
          values := values[name := []];
          names := names + [name];
        }
        if v != Bool(true) && v !in values[name] {
          values := values[name := values[name] + [v]];
        }
        assert ValueIndex(names, values) == AddValue(before, name, v);
        assert attrs[..j + 1][..j] == attrs[..j];
      }
      assert attrs[..|attrs|] == attrs;
      assert todos[..i + 1][..i] == todos[..i];
    }
    assert todos[..|todos|] == todos;
  }

  /** The `forEach` over the todos that pushes each defined project onto the
      `project` list unless `find` reports it there. */
  method CollectProjects(start: map<string, seq<AttrValue>>, todos: seq<TodoItem>) returns (values: map<string, seq<AttrValue>>)
    requires "project" in start
    ensures values == AddProjectsAsWritten(start, todos)
  {
    values := start;
    for i := 0 to |todos|
      invariant "project" in values
      invariant values == AddProjectsAsWritten(start, todos[..i])
    {
      var p := todos[i].project;
      ghost var before := values;
      if p.Some? && (p.value !in values["project"] || !TruthyValue(p.value)) {
        values := values["project" := values["project"] + [p.value]];
      }
      assert values == AddProjectAsWritten(before, p);
      assert todos[..i + 1][..i] == todos[..i];
    }
    assert todos[..|todos|] == todos;
  }

  /** `parseFolder`: walks the folder, fills the index, sorts a copy of the
      names in place, then completes the value dictionary with the `project`
      and `selected` lists. */
  method ParseFolder(folder: string, entries: seq<Entry>, templates: string, parse: FileParse, collate: string -> int)
    returns (pf: ParsedFolder)
    ensures pf == ParsedFolderOf(FindFolderTodos(folder, entries, templates, parse), collate)
  {
    var todos := FindFolderTodos(folder, entries, templates, parse);
    var names, values := IndexAttributes(todos);
    ghost var index := values;
    var sorted := new string[|names|](k requires 0 <= k < |names| => names[k]);
    assert sorted[..] == names;
    SortInPlace(sorted, ByKey(collate));
    if "project" !in values {
      values := values["project" := []];
    }
    if "selected" !in values {
      values := values["selected" := []];
    }
    assert values == StartValues(todos);
    values := CollectProjects(values, todos);
    pf := ParsedFolder(todos, sorted[..], values);
  }

  /** Two todos with the project `""` leave it listed twice after an empty
      list. */
  lemma EmptyProjectListedTwice(t1: TodoItem, t2: TodoItem)
    requires t1.project == Some(Str("")) && t2.project == Some(Str(""))
    ensures AddProjectsAsWritten(map["project" := []], [t1, t2])["project"] == [Str(""), Str("")]
  {
    assert [t1, t2][..1] == [t1] && [t1][..0] == [];
    var empty: map<string, seq<AttrValue>> := map["project" := []];
    assert AddProjectsAsWritten(empty, []) == empty;
    var once := AddProjectsAsWritten(empty, [t1]);
    assert once["project"] == [Str("")];
  }
}
