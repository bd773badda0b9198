/** Per-file parsing: the todo lines of a Markdown file and its front-matter
    header (src/domain/FileParser.ts). */
module FileParser {
  import opened Results
  import opened Text
  import opened Model

  /** The line parser (`LineOperations.toTodo`): a line and its 0-based
      number give a todo or `null`. Its grammar is not part of this model. */
  type LineParser = (string, int) -> Option<TodoItem>

  /** The todos the line parser accepts, in line order. */
  function AcceptedTodos(lines: seq<string>, toTodo: LineParser): (r: seq<TodoItem>)
    ensures |r| <= |lines|
  {
    if lines == [] then []
    else
      var n := |lines| - 1;
      AcceptedTodos(lines[..n], toTodo) +
        (match toTodo(lines[n], n) case Some(t) => [t] case None => [])
  }

  /** The numbers of the accepted lines, in the same order. */
  function AcceptedLines(lines: seq<string>, toTodo: LineParser): seq<nat> {
    if lines == [] then []
    else
      var n := |lines| - 1;
      AcceptedLines(lines[..n], toTodo) + (if toTodo(lines[n], n).Some? then [n] else [])
  }

  /** The accepted todos are exactly the non-null results of the line parser,
      one per accepting line, in increasing line order. */
  lemma {:induction false} AcceptedTodosExact(lines: seq<string>, toTodo: LineParser)
    ensures var ls, ts := AcceptedLines(lines, toTodo), AcceptedTodos(lines, toTodo);
      && |ls| == |ts|
      && (forall k :: 0 <= k < |ls| ==> ls[k] < |lines| && toTodo(lines[ls[k]], ls[k]) == Some(ts[k]))
      && (forall k, m :: 0 <= k < m < |ls| ==> ls[k] < ls[m])
      && (forall i :: 0 <= i < |lines| ==> (toTodo(lines[i], i).Some? <==> i in ls))
  {
    if lines != [] {
      var n := |lines| - 1;
      var init := lines[..n];
      AcceptedTodosExact(init, toTodo);
      assert forall i :: 0 <= i < n ==> init[i] == lines[i];
    }
  }

  /** The `project` stamped on a todo: its `project` attribute when truthy,
      the empty string otherwise. */
  function ProjectOf(t: TodoItem): (p: AttrValue)
    ensures Truthy(Some(p)) ==> Get(t.attributes, "project") == Some(p)
    ensures !Truthy(Some(p)) ==> p == Str("") && !Truthy(Get(t.attributes, "project"))
  {
    var v := Get(t.attributes, "project");
    if Truthy(v) then v.value else Str("")
  }

  /** `findTodos`: split on line feeds, keep the accepted lines, then stamp
      the file and the project onto each todo in place. */
  method FindTodos(content: string, file: string, toTodo: LineParser) returns (todos: seq<TodoItem>)
    ensures var accepted := AcceptedTodos(Split(content, '\n'), toTodo);
      && |todos| == |accepted|
      && forall k :: 0 <= k < |todos| ==>
           todos[k] == accepted[k].(file := file, project := Some(ProjectOf(accepted[k])))
  {
    var accepted := AcceptedTodos(Split(content, '\n'), toTodo);
    var a := new TodoItem[|accepted|](k requires 0 <= k < |accepted| => accepted[k]);
    var i := 0;
    while i < a.Length
      invariant 0 <= i <= a.Length
      invariant forall k :: 0 <= k < i ==>
        a[k] == accepted[k].(file := file, project := Some(ProjectOf(accepted[k])))
      invariant forall k :: i <= k < a.Length ==> a[k] == accepted[k]
    {
      a[i] := a[i].(file := file, project := Some(ProjectOf(a[i])));
      i := i + 1;
    }
    todos := a[..];
  }

  /** The properties of a file without a usable header. */
  function NoHeader(file: string): (p: FileProperties)
    ensures p.path == file && p.name == Basename(file)
    ensures p.project == None && p.attributes == YMap([])
  {
    FileProperties(file, Basename(file), None, YMap([]))
  }

  /** What the header's parse result gives: `yaml.parse` throwing (`None`)
      or returning `null` makes the operation fail; otherwise the result is
      the attributes, and a truthy `project` key gives the project, as a
      string. */
  function FromHeader(file: string, parsed: Option<Yaml>): (r: Result<FileProperties>)
    ensures r.Ok? <==> parsed.Some? && !parsed.value.YNull?
    ensures r.Ok? ==> r.value.path == file && r.value.name == Basename(file) && r.value.attributes == parsed.value
    ensures r.Ok? ==> (r.value.project.Some? <==> YTruthy(YGet(parsed.value, "project")))
    ensures r.Ok? && r.value.project.Some? ==> r.value.project.value == YToString(YGet(parsed.value, "project"))
  {
    match parsed
    case None => Failure("the header is not valid YAML")
    case Some(YNull) => Failure("cannot read property 'project' of null")
    case Some(y) =>
      var project := YGet(y, "project");
      Ok(FileProperties(file, Basename(file), if YTruthy(project) then Some(YToString(project)) else None, y))
  }

  /** `getFileProperties`: the header is the text between a leading `---\n`
      and the next `---`; a header opened with `---\r\n` is not recognised. */
  method GetFileProperties(content: string, file: string, yamlParse: string -> Option<Yaml>)
    returns (r: Result<FileProperties>)
    ensures !StartsWith(content, "---\n") ==> r == Ok(NoHeader(file))
    ensures StartsWith(content, "---\r\n") ==> r == Ok(NoHeader(file))
    ensures StartsWith(content, "---\n") && IndexOf(content, "---", 4) < 0 ==> r == Ok(NoHeader(file))
    ensures StartsWith(content, "---\n") && IndexOf(content, "---", 4) >= 0 ==>
      r == FromHeader(file, yamlParse(content[4..IndexOf(content, "---", 4)]))
  {
    var name := Basename(file);
    var res := FileProperties(file, name, None, YMap([]));
    if |content| < 3 || Substr(content, 0, 4) != "---\n" {
      if |content| >= 4 {
        assert Substr(content, 0, 4) == content[..4];
      }
      return Ok(res);
    }
    assert Substr(content, 0, 4) == content[..4];
    assert content[3] == '\n';
    var headerEnd := IndexOf(content, "---", 4);
    if headerEnd < 0 {
      return Ok(res);
    }
    var header := Substr(content, 4, headerEnd - 4);
    var parsedHeader := yamlParse(header);
    if parsedHeader.None? {
      return Failure("the header is not valid YAML");
    }
    if parsedHeader.value.YNull? {
      return Failure("cannot read property 'project' of null");
    }
    var project := YGet(parsedHeader.value, "project");
    if YTruthy(project) {
      res := res.(project := Some(YToString(project)));
    }
    res := res.(attributes := parsedHeader.value);
    r := Ok(res);
  }
}
