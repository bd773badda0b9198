/** The records the core passes around: todo items with their inline
    attributes, the values a front-matter header parses to, and the
    per-file records (src/domain/ParsedFile.ts, src/domain/FileProperties.ts). */
module Model {
  import opened Results
  import opened Text

  /** `TodoStatus`; its numeric values (used by the status sort) follow the
      declaration order Todo, InProgress, Complete, Canceled, Delegated,
      AttentionRequired. */
  datatype TodoStatus = Todo | InProgress | Complete | Canceled | Delegated | AttentionRequired

  function StatusValue(s: TodoStatus): (n: int)
    ensures 0 <= n < 6
  {
    match s
    case Todo => 0
    case InProgress => 1
    case Complete => 2
    case Canceled => 3
    case Delegated => 4
    case AttentionRequired => 5
  }

  /** An inline attribute value: `@name(value)` gives a string, `@name` the
      boolean `true`; other producers may also store `false`. */
  datatype AttrValue = Str(s: string) | Bool(b: bool)

  predicate DistinctNames<V>(entries: seq<(string, V)>) {
    forall i, j :: 0 <= i < j < |entries| ==> entries[i].0 != entries[j].0
  }

  /** A todo's attribute dictionary, keys in insertion (`Object.keys`) order. */
  type Attributes = a: seq<(string, AttrValue)> | DistinctNames(a)

  /** `attributes[name]`: `None` is `undefined`. */
  function Get(a: seq<(string, AttrValue)>, name: string): (r: Option<AttrValue>)
    ensures r.Some? <==> exists i :: 0 <= i < |a| && a[i].0 == name
    ensures r.Some? ==> (name, r.value) in a
  {
    if a == [] then None
    else if a[0].0 == name then Some(a[0].1)
    else Get(a[1..], name)
  }

  /** The value stored under a key of a dictionary without repeated keys is
      the one in its entry. */
  lemma {:induction false} GetEntry(a: Attributes, i: nat)
    requires i < |a|
    ensures Get(a, a[i].0) == Some(a[i].1)
  {
    if i > 0 {
      assert DistinctNames(a[1..]);
      GetEntry(a[1..], i - 1);
    }
  }

  /** JavaScript truthiness of an attribute lookup. */
  predicate Truthy(v: Option<AttrValue>) {
    match v
    case None => false
    case Some(Str(s)) => s != ""
    case Some(Bool(b)) => b
  }

  /** `${value}` of an attribute value. */
  function AttrToString(v: AttrValue): string {
    match v
    case Str(s) => s
    case Bool(b) => if b then "true" else "false"
  }

  /** A todo item; `project` and `subtasks` may be `undefined` (`None`). An
      absent attribute dictionary behaves as the empty one at every use in
      the core, so it is represented by `[]`. */
  datatype TodoItem = TodoItem(
    file: string,
    line: int,
    status: TodoStatus,
    text: string,
    attributes: Attributes,
    project: Option<AttrValue>,
    subtasks: Subtasks)

  /** A todo's `subtasks`: `undefined`, or a list (possibly empty). */
  datatype Subtasks = NoSubtasks | SubtaskList(items: seq<TodoItem>)

  /** What the YAML parser produces for a header or a configuration file;
      only integral numbers are represented. */
  datatype Yaml =
    | YNull
    | YBool(b: bool)
    | YNum(n: int)
    | YStr(s: string)
    | YList(items: seq<Yaml>)
    | YMap(entries: seq<(string, Yaml)>)

  /** `value[key]` on a parsed value: only objects have keys. */
  function YGet(y: Yaml, key: string): (r: Option<Yaml>)
    ensures r.Some? ==> y.YMap? && (key, r.value) in y.entries
  {
    match y
    case YMap(entries) => Lookup(entries, key)
    case _ => None
  }

  function Lookup(entries: seq<(string, Yaml)>, key: string): (r: Option<Yaml>)
    ensures r.Some? ==> (key, r.value) in entries
    ensures r.None? ==> forall i :: 0 <= i < |entries| ==> entries[i].0 != key
  {
    if entries == [] then None
    else if entries[0].0 == key then Some(entries[0].1)
    else Lookup(entries[1..], key)
  }

  /** JavaScript truthiness (`None` is `undefined`). */
  predicate YTruthy(v: Option<Yaml>) {
    match v
    case None => false
    case Some(YNull) => false
    case Some(YBool(b)) => b
    case Some(YNum(n)) => n != 0
    case Some(YStr(s)) => s != ""
    case Some(YList(_)) => true
    case Some(YMap(_)) => true
  }

  /** `${value}` (`None` is `undefined`); arrays join their elements with
      commas, rendering `null` elements as empty. */
  function YToString(v: Option<Yaml>): string {
    match v
    case None => "undefined"
    case Some(y) => YamlToString(y)
  }

  function YamlToString(y: Yaml): string {
    match y
    case YNull => "null"
    case YBool(b) => if b then "true" else "false"
    case YNum(n) => IntToString(n)
    case YStr(s) => s
    case YList(items) => JoinItems(items)
    case YMap(_) => "[object Object]"
  }

  function JoinItems(items: seq<Yaml>): string {
    if items == [] then ""
    else
      var first := if items[0].YNull? then "" else YamlToString(items[0]);
      if |items| == 1 then first else first + "," + JoinItems(items[1..])
  }

  function IntToString(n: int): (r: string)
    ensures r != ""
  {
    if n < 0 then "-" + NatToString(-n) else NatToString(n)
  }

  function NatToString(n: nat): (r: string)
    ensures r != []
    ensures forall i :: 0 <= i < |r| ==> '0' <= r[i] <= '9'
  {
    var d := ['0' + (n % 10) as char];
    if n < 10 then d else NatToString(n / 10) + d
  }

  /** A truthy value that is not an array stringifies to a non-empty
      string; an array may not (`${[]}` is ""). */
  lemma TruthyToString(v: Option<Yaml>)
    requires YTruthy(v) && !v.value.YList?
    ensures YToString(v) != ""
  {
  }

  lemma EmptyListToString()
    ensures YTruthy(Some(YList([]))) && YToString(Some(YList([]))) == ""
  {
  }

  /** Front-matter properties of one file. */
  datatype FileProperties = FileProperties(
    path: string,
    name: string,
    project: Option<string>,
    attributes: Yaml)

  datatype ParsedFile = ParsedFile(todos: seq<TodoItem>, fileProperties: FileProperties)

  datatype Attachment = Attachment(path: string, name: string)
}
