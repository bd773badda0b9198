/** The todo tree view (src/infrastructure/views/TodoHierarchicView.ts):
    icons, the filtering and sorting of todo lists ("grooming"), the
    flattening of subtasks, and the groups shown at the top level. */
module TodoView {
  import opened Results
  import opened Seqs
  import opened Sorting
  import opened Model

  // ---------------------------------------------------------------- icons

  /** `statusToIcon`. */
  function StatusToIcon(s: TodoStatus): (icon: string)
    ensures icon != ""
  {
    match s
    case Complete => "\U{2714}"
    case AttentionRequired => "\U{2757}"
    case Canceled => "\U{274C}"
    case Delegated => "\U{1F46C}"
    case InProgress => "\U{200D}\U{23E9}"
    case Todo => "\U{2B1C}"
  }

  /** Reading a status back from its icon. */
  function IconStatus(icon: string): Option<TodoStatus> {
    if icon == "\U{2714}" then Some(Complete)
    else if icon == "\U{2757}" then Some(AttentionRequired)
    else if icon == "\U{274C}" then Some(Canceled)
    else if icon == "\U{1F46C}" then Some(Delegated)
    else if icon == "\U{200D}\U{23E9}" then Some(InProgress)
    else if icon == "\U{2B1C}" then Some(Todo)
    else None
  }

  /** Each status has its own icon: the icon tells the status back. */
  lemma StatusIconRoundTrip(s: TodoStatus)
    ensures IconStatus(StatusToIcon(s)) == Some(s)
  {
  }

  /** `attributeIsPriority`. */
  predicate AttributeIsPriority(name: string) {
    name == "priority" || name == "importance"
  }

  /** The icon of a priority value; unknown values have none. */
  function PriorityIcon(v: AttrValue): string {
    if v == Str("critical") then "\U{2757}\U{2757}"
    else if v == Str("high") then "\U{2757}"
    else if v == Str("medium") then "\U{1F538}"
    else if v == Str("low") then "\U{1F53D}"
    else if v == Str("lowest") then "\U{23EC}"
    else ""
  }

  predicate IsPriorityEntry(e: (string, AttrValue)) {
    AttributeIsPriority(e.0)
  }

  /** `mapPriority`: the icon of the first priority-like attribute in key
      order, `""` when there is none or its value has no icon. */
  function MapPriority(attributes: Attributes): string {
    var priorities := Filter(attributes, IsPriorityEntry);
    if priorities == [] then "" else PriorityIcon(priorities[0].1)
  }

  /** The first of the `priority` and `importance` attributes decides the
      icon. */
  lemma MapPriorityFirst(attributes: Attributes, i: nat)
    requires i < |attributes| && AttributeIsPriority(attributes[i].0)
    requires forall j :: 0 <= j < i ==> !AttributeIsPriority(attributes[j].0)
    ensures MapPriority(attributes) == PriorityIcon(attributes[i].1)
  {
    FilterFirst(attributes, IsPriorityEntry, i);
  }

  /** Without a `priority` or `importance` attribute there is no icon. */
  lemma MapPriorityNone(attributes: Attributes)
    requires forall j :: 0 <= j < |attributes| ==> !AttributeIsPriority(attributes[j].0)
    ensures MapPriority(attributes) == ""
  {
  }

  /** `priorityValues[value] || 0`: the rank of a priority value; a missing
      attribute, a boolean and an unknown string rank 0. */
  function PriorityValue(v: Option<AttrValue>): int {
    if v == Some(Str("critical")) then 10
    else if v == Some(Str("high")) then 9
    else if v == Some(Str("medium")) then 5
    else if v == Some(Str("low")) then 3
    else if v == Some(Str("lowest")) then -1
    else 0
  }

  /** The values that rank are exactly the values that have an icon, and
      the ranks follow the icons' order of urgency. */
  lemma PriorityValueMatchesIcon(v: AttrValue)
    ensures PriorityIcon(v) != "" <==> PriorityValue(Some(v)) != 0
    ensures PriorityValue(Some(Str("critical"))) > PriorityValue(Some(Str("high"))) > PriorityValue(Some(Str("medium")))
      > PriorityValue(Some(Str("low"))) > PriorityValue(None) > PriorityValue(Some(Str("lowest")))
  {
  }

  // ------------------------------------------------------------- settings

  datatype Direction = Up | Down
  datatype SortOption = SortByStatus | SortByAttribute
  datatype SortBy = SortBy(option: SortOption, direction: Direction, attributeName: Option<string>)
  datatype GroupOption = GroupByStatus | GroupByAttribute | NoGrouping
  datatype GroupBy = GroupBy(option: GroupOption, attributeName: Option<string>)

  /** Everything that decides what the view shows. */
  datatype Settings = Settings(
    showSelectedOnTop: bool,
    showDueOnTop: bool,
    showCompleted: bool,
    showCanceled: bool,
    showEmpty: bool,
    groupBy: GroupBy,
    sortBy: SortBy)

  // ----------------------------------------------------------- comparators

  /** `n * directionMultiplier`. */
  function Directed(d: Direction, n: int): int {
    if d == Up then n else -n
  }

  /** The comparator `(a, b) => (key(a) - key(b)) * directionMultiplier`, as
      the `le` of a sort. */
  function DirectedByKey(key: TodoItem -> int, d: Direction): (TodoItem, TodoItem) -> bool {
    (a: TodoItem, b: TodoItem) => Directed(d, key(a) - key(b)) <= 0
  }

  lemma DirectedByKeyTotal(key: TodoItem -> int, d: Direction)
    ensures TotalPreorder(DirectedByKey(key, d))
  {
  }

  function StatusKey(t: TodoItem): int {
    StatusValue(t.status)
  }

  function PriorityKey(name: string): TodoItem -> int {
    (t: TodoItem) => PriorityValue(Get(t.attributes, name))
  }

  /** The comparator of the attribute sort AS WRITTEN: a todo without the
      attribute is "bigger", then `true` and `false`, then the strings by
      `collate` (`localeCompare`). */
  function CompareAttributeAsWritten(a: TodoItem, b: TodoItem, name: string, d: Direction, collate: string -> int): int {
    var x, y := Get(a.attributes, name), Get(b.attributes, name);
    if x.None? then Directed(d, 1)
    else if y.None? then Directed(d, -1)
    else if x.value == Bool(true) || y.value == Bool(false) then Directed(d, -1)
    else if x.value == Bool(false) || y.value == Bool(true) then Directed(d, 1)
    else Directed(d, collate(AttrToString(x.value)) - collate(AttrToString(y.value)))
  }

  /** Two todos that both lack the attribute are each declared greater than
      the other, so the comparator is not a consistent order and the result
      of `sort` is left to the engine. */
  lemma AsWrittenNotAnOrder(a: TodoItem, b: TodoItem, name: string, collate: string -> int)
    requires Get(a.attributes, name).None? && Get(b.attributes, name).None?
    ensures CompareAttributeAsWritten(a, b, name, Up, collate) > 0
    ensures CompareAttributeAsWritten(b, a, name, Up, collate) > 0
    ensures !TotalPreorder(AttributeLeAsWritten(name, Up, collate))
  {
    var le := AttributeLeAsWritten(name, Up, collate);
    assert !le(a, b) && !le(b, a);
  }

  /** Two todos holding the same flag (`true` and `true`, or `false` and
      `false`) are each declared smaller than the other: the comparator
      gives the same non-zero sign in both argument orders, where a
      consistent comparator gives opposite signs or zero. */
  lemma AsWrittenFlagsInconsistent(a: TodoItem, b: TodoItem, name: string, d: Direction, collate: string -> int)
    requires Get(a.attributes, name) == Get(b.attributes, name)
    requires Get(a.attributes, name).Some? && Get(a.attributes, name).value.Bool?
    ensures CompareAttributeAsWritten(a, b, name, d, collate) == CompareAttributeAsWritten(b, a, name, d, collate) == Directed(d, -1)
  {
  }

  function AttributeLeAsWritten(name: string, d: Direction, collate: string -> int): (TodoItem, TodoItem) -> bool {
    (a: TodoItem, b: TodoItem) => CompareAttributeAsWritten(a, b, name, d, collate) <= 0
  }

  /** The class of an attribute value in the attribute sort: `true` first,
      then strings, then `false`, then a missing attribute. */
  function AttributeRank(v: Option<AttrValue>): int {
    match v
    case None => 3
    case Some(Bool(b)) => if b then 0 else 2
    case Some(Str(_)) => 1
  }

  /** The order among strings. */
  function StringKey(v: Option<AttrValue>, collate: string -> int): int {
    if v.Some? && v.value.Str? then collate(v.value.s) else 0
  }

  /** The attribute comparator, corrected: todos of the same class compare
      equal unless both hold strings. */
  function CompareAttribute(a: TodoItem, b: TodoItem, name: string, d: Direction, collate: string -> int): int {
    var x, y := Get(a.attributes, name), Get(b.attributes, name);
    if AttributeRank(x) != AttributeRank(y) then Directed(d, AttributeRank(x) - AttributeRank(y))
    else Directed(d, StringKey(x, collate) - StringKey(y, collate))
  }

  /** The corrected comparator agrees in sign with the one as written on
      every pair the latter orders consistently: values of different
      classes, and two strings. */
  lemma CompareAttributeAgrees(a: TodoItem, b: TodoItem, name: string, d: Direction, collate: string -> int)
    requires var x, y := Get(a.attributes, name), Get(b.attributes, name);
      AttributeRank(x) != AttributeRank(y) || (x.Some? && x.value.Str? && y.Some? && y.value.Str?)
    ensures var c, w := CompareAttribute(a, b, name, d, collate), CompareAttributeAsWritten(a, b, name, d, collate);
      (c < 0 <==> w < 0) && (c > 0 <==> w > 0)
  {
  }

  function AttributeLe(name: string, d: Direction, collate: string -> int): (TodoItem, TodoItem) -> bool {
    (a: TodoItem, b: TodoItem) => CompareAttribute(a, b, name, d, collate) <= 0
  }

  /** The corrected comparator is a consistent total preorder. */
  lemma AttributeLeTotal(name: string, d: Direction, collate: string -> int)
    ensures TotalPreorder(AttributeLe(name, d, collate))
  {
    var le := AttributeLe(name, d, collate);
    forall x, y, z | le(x, y) && le(y, z) ensures le(x, z) {
    }
  }

  /** The comparator `groomTodos` sorts with, `None` when it does not sort
      (an attribute sort without an attribute name). */
  function SortComparator(s: SortBy, collate: string -> int): Option<(TodoItem, TodoItem) -> bool> {
    match s.option
    case SortByStatus => Some(DirectedByKey(StatusKey, s.direction))
    case SortByAttribute =>
      if s.attributeName.None? || s.attributeName.value == "" then None
      else if AttributeIsPriority(s.attributeName.value) then
        Some(DirectedByKey(PriorityKey(s.attributeName.value), s.direction))
      else Some(AttributeLe(s.attributeName.value, s.direction, collate))
  }

  /** Every comparator the view sorts with is a consistent total preorder. */
  lemma SortComparatorTotal(s: SortBy, collate: string -> int)
    requires SortComparator(s, collate).Some?
    ensures TotalPreorder(SortComparator(s, collate).value)
  {
    match s.option
    case SortByStatus => DirectedByKeyTotal(StatusKey, s.direction);
    case SortByAttribute =>
      if AttributeIsPriority(s.attributeName.value) {
        DirectedByKeyTotal(PriorityKey(s.attributeName.value), s.direction);
      } else {
        AttributeLeTotal(s.attributeName.value, s.direction, collate);
      }
  }

  // -------------------------------------------------------------- grooming

  predicate NotComplete(t: TodoItem) {
    t.status != Complete
  }

  predicate NotCanceled(t: TodoItem) {
    t.status != Canceled
  }

  /** A todo the settings let through. */
  predicate Shown(t: TodoItem, s: Settings) {
    (s.showCompleted || t.status != Complete) && (s.showCanceled || t.status != Canceled)
  }

  /** The todos left after the two filters of `groomTodos`, in order. */
  function Visible(todos: seq<TodoItem>, s: Settings): seq<TodoItem> {
    var a := if !s.showCompleted then Filter(todos, NotComplete) else todos;
    if !s.showCanceled then Filter(a, NotCanceled) else a
  }

  /** `groomTodos`: filter, then sort stably with the settings' comparator. */
  function Groom(todos: seq<TodoItem>, s: Settings, collate: string -> int): seq<TodoItem> {
    var v := Visible(todos, s);
    match SortComparator(s.sortBy, collate)
    case None => v
    case Some(le) => InsertionSort(v, le)
  }

  /** Grooming drops exactly the hidden todos and keeps every other one with
      its multiplicity. */
  lemma GroomContents(todos: seq<TodoItem>, s: Settings, collate: string -> int, t: TodoItem)
    ensures multiset(Groom(todos, s, collate))[t] == if Shown(t, s) then multiset(todos)[t] else 0
  {
    var a := if !s.showCompleted then Filter(todos, NotComplete) else todos;
    FilterMultiset(todos, NotComplete, t);
    FilterMultiset(a, NotCanceled, t);
    var v := Visible(todos, s);
    match SortComparator(s.sortBy, collate)
    case None =>
    case Some(le) => InsertionSortPermutes(v, le);
  }

  lemma GroomMembers(todos: seq<TodoItem>, s: Settings, collate: string -> int, t: TodoItem)
    ensures t in Groom(todos, s, collate) <==> t in todos && Shown(t, s)
  {
    GroomContents(todos, s, collate, t);
  }

  /** The groomed list is sorted by the settings' comparator. */
  lemma GroomSorted(todos: seq<TodoItem>, s: Settings, collate: string -> int)
    requires SortComparator(s.sortBy, collate).Some?
    ensures Sorted(Groom(todos, s, collate), SortComparator(s.sortBy, collate).value)
  {
    var le := SortComparator(s.sortBy, collate).value;
    SortComparatorTotal(s.sortBy, collate);
    InsertionSortSorted(Visible(todos, s), le);
  }

  /** What a list sorted by a directed key looks like. */
  lemma SortedByKey(r: seq<TodoItem>, key: TodoItem -> int, d: Direction)
    requires Sorted(r, DirectedByKey(key, d))
    ensures forall i, j :: 0 <= i < j < |r| ==> if d == Up then key(r[i]) <= key(r[j]) else key(r[i]) >= key(r[j])
  {
    forall i, j | 0 <= i < j < |r|
      ensures if d == Up then key(r[i]) <= key(r[j]) else key(r[i]) >= key(r[j])
    {
      assert DirectedByKey(key, d)(r[i], r[j]);
    }
  }

  /** Sorting by status puts the statuses in their numeric order, reversed
      for the downward direction. */
  lemma GroomStatusOrder(todos: seq<TodoItem>, s: Settings, collate: string -> int)
    requires s.sortBy.option == SortByStatus
    ensures var r := Groom(todos, s, collate);
      forall i, j :: 0 <= i < j < |r| ==>
        if s.sortBy.direction == Up then StatusValue(r[i].status) <= StatusValue(r[j].status)
        else StatusValue(r[i].status) >= StatusValue(r[j].status)
  {
    GroomSorted(todos, s, collate);
    SortedByKey(Groom(todos, s, collate), StatusKey, s.sortBy.direction);
  }

  /** Sorting by a priority attribute orders by rank: upward the least
      urgent first, downward the most urgent first. */
  lemma GroomPriorityOrder(todos: seq<TodoItem>, s: Settings, collate: string -> int)
    requires s.sortBy.option == SortByAttribute && s.sortBy.attributeName.Some?
    requires AttributeIsPriority(s.sortBy.attributeName.value)
    ensures var r, name := Groom(todos, s, collate), s.sortBy.attributeName.value;
      forall i, j :: 0 <= i < j < |r| ==>
        if s.sortBy.direction == Up then PriorityValue(Get(r[i].attributes, name)) <= PriorityValue(Get(r[j].attributes, name))
        else PriorityValue(Get(r[i].attributes, name)) >= PriorityValue(Get(r[j].attributes, name))
  {
    var name, d := s.sortBy.attributeName.value, s.sortBy.direction;
    assert name != "";
    assert SortComparator(s.sortBy, collate) == Some(DirectedByKey(PriorityKey(name), d));
    GroomSorted(todos, s, collate);
    var r := Groom(todos, s, collate);
    SortedByKey(r, PriorityKey(name), d);
    forall i, j | 0 <= i < j < |r|
      ensures if d == Up then PriorityValue(Get(r[i].attributes, name)) <= PriorityValue(Get(r[j].attributes, name))
              else PriorityValue(Get(r[i].attributes, name)) >= PriorityValue(Get(r[j].attributes, name))
    {
      assert PriorityKey(name)(r[i]) == PriorityValue(Get(r[i].attributes, name));
      assert PriorityKey(name)(r[j]) == PriorityValue(Get(r[j].attributes, name));
    }
  }

  /** Attribute values `x` then `y` in the order of the attribute sort:
      by class first, strings by `collate`. */
  predicate InAttributeOrder(x: Option<AttrValue>, y: Option<AttrValue>, d: Direction, collate: string -> int) {
    && Directed(d, AttributeRank(x) - AttributeRank(y)) <= 0
    && (AttributeRank(x) == AttributeRank(y) ==> Directed(d, StringKey(x, collate) - StringKey(y, collate)) <= 0)
  }

  /** What a list sorted by the attribute comparator looks like. */
  lemma SortedByAttribute(r: seq<TodoItem>, name: string, d: Direction, collate: string -> int)
    requires Sorted(r, AttributeLe(name, d, collate))
    ensures forall i, j :: 0 <= i < j < |r| ==>
      InAttributeOrder(Get(r[i].attributes, name), Get(r[j].attributes, name), d, collate)
  {
    forall i, j | 0 <= i < j < |r|
      ensures InAttributeOrder(Get(r[i].attributes, name), Get(r[j].attributes, name), d, collate)
    {
      assert AttributeLe(name, d, collate)(r[i], r[j]);
    }
  }

  /** Sorting by another attribute orders by class (upward: `true`, strings,
      `false`, missing) and the strings by `collate`. */
  lemma GroomAttributeOrder(todos: seq<TodoItem>, s: Settings, collate: string -> int)
    requires s.sortBy.option == SortByAttribute && s.sortBy.attributeName.Some?
    requires s.sortBy.attributeName.value != "" && !AttributeIsPriority(s.sortBy.attributeName.value)
    ensures var r, name := Groom(todos, s, collate), s.sortBy.attributeName.value;
      forall i, j :: 0 <= i < j < |r| ==>
        InAttributeOrder(Get(r[i].attributes, name), Get(r[j].attributes, name), s.sortBy.direction, collate)
  {
    GroomSorted(todos, s, collate);
    SortedByAttribute(Groom(todos, s, collate), s.sortBy.attributeName.value, s.sortBy.direction, collate);
  }

  /** The sort is stable: todos the comparator ties keep their order. */
  lemma GroomStable(todos: seq<TodoItem>, s: Settings, collate: string -> int, c: TodoItem)
    requires SortComparator(s.sortBy, collate).Some?
    ensures var le := SortComparator(s.sortBy, collate).value;
      Filter(Groom(todos, s, collate), EquivalentTo(le, c)) == Filter(Visible(todos, s), EquivalentTo(le, c))
  {
    SortComparatorTotal(s.sortBy, collate);
    InsertionSortStable(Visible(todos, s), SortComparator(s.sortBy, collate).value, c);
  }

  /** Without a comparator the filtered order is kept. */
  lemma GroomUnsorted(todos: seq<TodoItem>, s: Settings, collate: string -> int)
    requires s.sortBy.option == SortByAttribute
    requires s.sortBy.attributeName.None? || s.sortBy.attributeName.value == ""
    ensures Groom(todos, s, collate) == Visible(todos, s)
    ensures Subseq(Groom(todos, s, collate), todos)
  {
    var a := if !s.showCompleted then Filter(todos, NotComplete) else todos;
    if !s.showCompleted {
      FilterSubseq(todos, NotComplete);
    } else {
      SubseqRefl(todos);
    }
    if !s.showCanceled {
      FilterSubseq(a, NotCanceled);
    } else {
      SubseqRefl(a);
    }
    SubseqTransitive(Visible(todos, s), a, todos);
  }

  // ------------------------------------------------------------ the view

  /** The view's settings; `Groom` filters and sorts an array of todos as
      `groomTodos` does: `filter` makes a new array, `sort` works in place,
      so without filters the caller's array itself is sorted. */
  class TodoTreeView {
    var showSelectedOnTop: bool
    var showDueOnTop: bool
    var showCompleted: bool
    var showCanceled: bool
    var showEmpty: bool
    var groupBy: GroupBy
    var sortBy: SortBy

    /** The defaults used when nothing is stored. */
    constructor()
      ensures showSelectedOnTop && showDueOnTop && showCompleted && showCanceled && showEmpty
      ensures groupBy == GroupBy(GroupByStatus, None)
      ensures sortBy == SortBy(SortByStatus, Up, None)
    {
      showSelectedOnTop := true;
      showDueOnTop := true;
      showCompleted := true;
      showCanceled := true;
      showEmpty := true;
      groupBy := GroupBy(GroupByStatus, None);
      sortBy := SortBy(SortByStatus, Up, None);
    }

    function Current(): Settings
      reads this
    {
      Settings(showSelectedOnTop, showDueOnTop, showCompleted, showCanceled, showEmpty, groupBy, sortBy)
    }

    method GroomTodos(todos: array<TodoItem>, collate: string -> int) returns (r: array<TodoItem>)
      modifies todos
      ensures r[..] == Groom(old(todos[..]), Current(), collate)
      ensures showCompleted && showCanceled ==> r == todos
      ensures !(showCompleted && showCanceled) ==> fresh(r) && todos[..] == old(todos[..])
    {
      r := todos;
      if !showCompleted {
        var kept := Filter(r[..], NotComplete);
        r := new TodoItem[|kept|](i requires 0 <= i < |kept| => kept[i]);
        assert r[..] == kept;
      }
      if !showCanceled {
        var kept := Filter(r[..], NotCanceled);
        r := new TodoItem[|kept|](i requires 0 <= i < |kept| => kept[i]);
        assert r[..] == kept;
      }
      assert r[..] == Visible(old(todos[..]), Current());
      var le := SortComparator(sortBy, collate);
      if le.Some? {
        SortInPlace(r, le.value);
      }
    }
  }

  // -------------------------------------------------------------- subtasks

  /** `getAllTodosIncludingSubs` AS WRITTEN: the list, then the flattened
      subtasks of each of its todos. `None` is the `TypeError` that
      `reduce` without an initial value throws on an empty array, here for
      an empty list at any level. */
  function AllTodosAsWritten(todos: seq<TodoItem>): Option<seq<TodoItem>>
    decreases todos, 1
  {
    if todos == [] then None
    else
      match NextLevelAsWritten(todos)
      case None => None
      case Some(next) => Some(todos + next)
  }

  function NextLevelAsWritten(todos: seq<TodoItem>): Option<seq<TodoItem>>
    decreases todos, 0
  {
    if todos == [] then Some([])
    else
      match (SubtasksAsWritten(todos[0]), NextLevelAsWritten(todos[1..]))
      case (Some(a), Some(b)) => Some(a + b)
      case _ => None
  }

  function SubtasksAsWritten(t: TodoItem): Option<seq<TodoItem>>
    decreases t
  {
    if t.subtasks.SubtaskList? then AllTodosAsWritten(t.subtasks.items) else Some([])
  }

  /** The todos and, after them, all their subtasks at every depth: the
      flattening `getAllTodosIncludingSubs` evidently means, defined for
      empty lists too. */
  function Flatten(todos: seq<TodoItem>): seq<TodoItem>
    decreases todos, 1
  {
    todos + NextLevel(todos)
  }

  function NextLevel(todos: seq<TodoItem>): seq<TodoItem>
    decreases todos, 0
  {
    if todos == [] then [] else SubtasksOf(todos[0]) + NextLevel(todos[1..])
  }

  function SubtasksOf(t: TodoItem): seq<TodoItem>
    decreases t
  {
    if t.subtasks.SubtaskList? then Flatten(t.subtasks.items) else []
  }

  /** No subtask list, at any depth, is empty. */
  predicate NoEmptySubtasks(todos: seq<TodoItem>)
    decreases todos, 0
  {
    todos == [] || (NoEmptySubtasksAt(todos[0]) && NoEmptySubtasks(todos[1..]))
  }

  predicate NoEmptySubtasksAt(t: TodoItem)
    decreases t
  {
    t.subtasks.SubtaskList? ==> t.subtasks.items != [] && NoEmptySubtasks(t.subtasks.items)
  }

  /** The function as written fails exactly on an empty list or an empty
      subtask list somewhere below, and otherwise gives the flattening. */
  lemma {:induction false} AllTodosAgree(todos: seq<TodoItem>)
    ensures AllTodosAsWritten(todos).Some? <==> todos != [] && NoEmptySubtasks(todos)
    ensures AllTodosAsWritten(todos).Some? ==> AllTodosAsWritten(todos).value == Flatten(todos)
    decreases todos, 1
  {
    NextLevelAgree(todos);
  }

  lemma {:induction false} NextLevelAgree(todos: seq<TodoItem>)
    ensures NextLevelAsWritten(todos).Some? <==> NoEmptySubtasks(todos)
    ensures NextLevelAsWritten(todos).Some? ==> NextLevelAsWritten(todos).value == NextLevel(todos)
    decreases todos, 0
  {
    if todos != [] {
      SubtasksAgree(todos[0]);
      NextLevelAgree(todos[1..]);
    }
  }

  lemma {:induction false} SubtasksAgree(t: TodoItem)
    ensures SubtasksAsWritten(t).Some? <==> NoEmptySubtasksAt(t)
    ensures SubtasksAsWritten(t).Some? ==> SubtasksAsWritten(t).value == SubtasksOf(t)
    decreases t
  {
    if t.subtasks.SubtaskList? {
      AllTodosAgree(t.subtasks.items);
    }
  }

  /** A folder without todos, or a todo with an empty subtask list, makes
      the function as written throw, where the flattening is defined. */
  lemma EmptyListsThrow(t: TodoItem)
    requires t.subtasks == SubtaskList([])
    ensures AllTodosAsWritten([]).None? && Flatten([]) == []
    ensures AllTodosAsWritten([t]).None? && Flatten([t]) == [t]
  {
    assert NextLevel([t]) == SubtasksOf(t) + NextLevel([]);
    assert SubtasksAsWritten(t).None?;
  }

  lemma {:induction false} NextLevelMembers(todos: seq<TodoItem>, u: TodoItem)
    ensures u in NextLevel(todos) <==> exists i :: 0 <= i < |todos| && u in SubtasksOf(todos[i])
  {
    if todos != [] {
      NextLevelMembers(todos[1..], u);
      if u in NextLevel(todos[1..]) {
        var i :| 0 <= i < |todos[1..]| && u in SubtasksOf(todos[1..][i]);
        assert todos[i + 1] == todos[1..][i];
      }
      if exists i :: 0 <= i < |todos| && u in SubtasksOf(todos[i]) {
        var i :| 0 <= i < |todos| && u in SubtasksOf(todos[i]);
        if i > 0 {
          assert todos[1..][i - 1] == todos[i];
        }
      }
    }
  }

  /** The flattening holds every subtask of every todo it holds. */
  lemma {:induction false} FlattenClosed(todos: seq<TodoItem>)
    ensures forall t, u :: t in Flatten(todos) && t.subtasks.SubtaskList? && u in t.subtasks.items ==> u in Flatten(todos)
    decreases todos, 1
  {
    NextLevelClosed(todos);
    forall t, u | t in todos && t.subtasks.SubtaskList? && u in t.subtasks.items
      ensures u in NextLevel(todos)
    {
      var i :| 0 <= i < |todos| && todos[i] == t;
      assert u in SubtasksOf(t);
      NextLevelMembers(todos, u);
    }
  }

  lemma {:induction false} NextLevelClosed(todos: seq<TodoItem>)
    ensures forall t, u :: t in NextLevel(todos) && t.subtasks.SubtaskList? && u in t.subtasks.items ==> u in NextLevel(todos)
    decreases todos, 0
  {
    if todos != [] {
      SubtasksClosed(todos[0]);
      NextLevelClosed(todos[1..]);
    }
  }

  lemma {:induction false} SubtasksClosed(t: TodoItem)
    ensures forall x, u :: x in SubtasksOf(t) && x.subtasks.SubtaskList? && u in x.subtasks.items ==> u in SubtasksOf(t)
    decreases t
  {
    if t.subtasks.SubtaskList? {
      FlattenClosed(t.subtasks.items);
    }
  }

  // ---------------------------------------------------------------- groups

  /** A group of the tree: a label and its todos. */
  datatype Group = Group(name: string, todos: seq<TodoItem>)

  predicate NonEmpty(g: Group) {
    g.todos != []
  }

  /** The status groups, in display order. */
  const StatusGroups: seq<(string, TodoStatus)> := [
    ("Attention required", AttentionRequired),
    ("Todo", Todo),
    ("In progress", InProgress),
    ("Delegated", Delegated),
    ("Complete", Complete),
    ("Cancelled", Canceled)]

  /** Where a status's group sits among the status groups. */
  function StatusIndex(st: TodoStatus): (k: nat)
    ensures k < |StatusGroups| && StatusGroups[k].1 == st
  {
    match st
    case AttentionRequired => 0
    case Todo => 1
    case InProgress => 2
    case Delegated => 3
    case Complete => 4
    case Canceled => 5
  }

  lemma StatusIndexOf(k: nat)
    requires k < |StatusGroups|
    ensures StatusIndex(StatusGroups[k].1) == k
  {
    if k == 0 {} else if k == 1 {} else if k == 2 {} else if k == 3 {} else if k == 4 {} else {}
  }

  function HasStatus(st: TodoStatus): TodoItem -> bool {
    (t: TodoItem) => t.status == st
  }

  /** All six status groups of the top-level todos, groomed. */
  function AllStatusGroups(todos: seq<TodoItem>, s: Settings, collate: string -> int): (r: seq<Group>)
    ensures |r| == |StatusGroups|
  {
    seq(|StatusGroups|, k requires 0 <= k < |StatusGroups| =>
      Group(StatusGroups[k].0, Groom(Filter(todos, HasStatus(StatusGroups[k].1)), s, collate)))
  }

  /** `getGroupsByStatus`: the non-empty status groups. */
  function GroupsByStatus(todos: seq<TodoItem>, s: Settings, collate: string -> int): seq<Group> {
    Filter(AllStatusGroups(todos, s, collate), NonEmpty)
  }

  /** The label of the group of a status. */
  function StatusLabel(st: TodoStatus): string {
    StatusGroups[StatusIndex(st)].0
  }

  /** The status groups are non-empty and come in display order. */
  lemma GroupsByStatusOrder(todos: seq<TodoItem>, s: Settings, collate: string -> int)
    ensures Subseq(GroupsByStatus(todos, s, collate), AllStatusGroups(todos, s, collate))
    ensures forall g :: g in GroupsByStatus(todos, s, collate) ==> g.todos != []
  {
    FilterSubseq(AllStatusGroups(todos, s, collate), NonEmpty);
  }

  /** A status group holds only shown top-level todos of its own status. */
  lemma GroupsByStatusMembers(todos: seq<TodoItem>, s: Settings, collate: string -> int, g: Group, t: TodoItem)
    requires g in GroupsByStatus(todos, s, collate) && t in g.todos
    ensures g.name == StatusLabel(t.status) && t in todos && Shown(t, s)
  {
    var all := AllStatusGroups(todos, s, collate);
    var k :| 0 <= k < |all| && all[k] == g;
    var filtered := Filter(todos, HasStatus(StatusGroups[k].1));
    assert g.todos == Groom(filtered, s, collate);
    GroomMembers(filtered, s, collate, t);
    assert t in filtered;
    StatusIndexOf(k);
  }

  /** Every shown top-level todo is in the group of its status. */
  lemma GroupsByStatusComplete(todos: seq<TodoItem>, s: Settings, collate: string -> int, t: TodoItem)
    requires t in todos && Shown(t, s)
    ensures exists g :: g in GroupsByStatus(todos, s, collate) && g.name == StatusLabel(t.status) && t in g.todos
  {
    var all := AllStatusGroups(todos, s, collate);
    var k := StatusIndex(t.status);
    var filtered := Filter(todos, HasStatus(StatusGroups[k].1));
    assert t in filtered;
    GroomMembers(filtered, s, collate, t);
    assert all[k].todos == Groom(filtered, s, collate);
    assert all[k] in all;
    assert all[k] in GroupsByStatus(todos, s, collate);
  }

  /** `attributeName as string`: an undefined name is the key "undefined". */
  function AttributeKey(name: Option<string>): string {
    if name.Some? then name.value else "undefined"
  }

  function HasValue(name: string, v: AttrValue): TodoItem -> bool {
    (t: TodoItem) => Get(t.attributes, name) == Some(v)
  }

  function Lacks(name: string): TodoItem -> bool {
    (t: TodoItem) => Get(t.attributes, name).None?
  }

  /** One group per known value, labelled by the value, holding the
      top-level todos that carry exactly that value. */
  function ValueGroups(todos: seq<TodoItem>, vs: seq<AttrValue>, name: string, s: Settings, collate: string -> int): (r: seq<Group>)
    ensures |r| == |vs|
  {
    seq(|vs|, i requires 0 <= i < |vs| =>
      Group(AttrToString(vs[i]), Groom(Filter(todos, HasValue(name, vs[i])), s, collate)))
  }

  /** `getGroupsByAttribute`: `None` when the attribute has no entry in the
      folder's values (reading `.map` of `undefined` throws); otherwise the
      value groups, then an "Empty" group when some top-level todo lacks the
      attribute. */
  function GroupsByAttribute(todos: seq<TodoItem>, values: map<string, seq<AttrValue>>, name: string,
                             s: Settings, collate: string -> int): Option<seq<Group>>
  {
    if name !in values then None
    else
      var without := Filter(todos, Lacks(name));
      var groups := ValueGroups(todos, values[name], name, s, collate);
      Some(if without != [] then groups + [Group("Empty", Groom(without, s, collate))] else groups)
  }

  /** One group per known value, in the folder's order, each holding the
      shown top-level todos with that value; the "Empty" group exists
      exactly when a top-level todo lacks the attribute, and holds the shown
      ones among them. */
  lemma GroupsByAttributeSpec(todos: seq<TodoItem>, values: map<string, seq<AttrValue>>, name: string,
                              s: Settings, collate: string -> int)
    ensures GroupsByAttribute(todos, values, name, s, collate).Some? <==> name in values
    ensures name in values ==>
      var vs, g := values[name], GroupsByAttribute(todos, values, name, s, collate).value;
      && |g| == |vs| + (if exists t :: t in todos && Get(t.attributes, name).None? then 1 else 0)
      && (forall i :: 0 <= i < |vs| ==> g[i].name == AttrToString(vs[i]))
      && (forall i, t :: 0 <= i < |vs| ==>
            (t in g[i].todos <==> t in todos && Shown(t, s) && Get(t.attributes, name) == Some(vs[i])))
      && (|g| > |vs| ==> g[|vs|].name == "Empty")
      && (forall t :: |g| > |vs| ==>
            (t in g[|vs|].todos <==> t in todos && Shown(t, s) && Get(t.attributes, name).None?))
  {
    if name in values {
      var vs := values[name];
      var without := Filter(todos, Lacks(name));
      var groups := ValueGroups(todos, vs, name, s, collate);
      var g := GroupsByAttribute(todos, values, name, s, collate).value;
      assert without != [] <==> exists t :: t in todos && Get(t.attributes, name).None? by {
        if without != [] {
          assert without[0] in without;
        }
      }
      forall i, t | 0 <= i < |vs|
        ensures t in g[i].todos <==> t in todos && Shown(t, s) && Get(t.attributes, name) == Some(vs[i])
      {
        assert g[i] == groups[i];
        GroomMembers(Filter(todos, HasValue(name, vs[i])), s, collate, t);
      }
      forall t | |g| > |vs|
        ensures t in g[|vs|].todos <==> t in todos && Shown(t, s) && Get(t.attributes, name).None?
      {
        GroomMembers(without, s, collate, t);
      }
    }
  }

  /** A todo whose attribute is the flag `true` is in no group when the
      folder does not list `true` among the values, as the folder parser
      never does. */
  lemma FlaggedTodoUngrouped(todos: seq<TodoItem>, values: map<string, seq<AttrValue>>, name: string,
                             s: Settings, collate: string -> int, t: TodoItem)
    requires name in values && Bool(true) !in values[name]
    requires Get(t.attributes, name) == Some(Bool(true))
    ensures forall g :: g in GroupsByAttribute(todos, values, name, s, collate).value ==> t !in g.todos
  {
    GroupsByAttributeSpec(todos, values, name, s, collate);
    var vs, g := values[name], GroupsByAttribute(todos, values, name, s, collate).value;
    forall x | x in g ensures t !in x.todos {
      var i :| 0 <= i < |g| && g[i] == x;
      if i < |vs| {
        assert vs[i] in vs;
      }
    }
  }

  /** `getNoGroups`. */
  function NoGroups(todos: seq<TodoItem>, s: Settings, collate: string -> int): seq<Group> {
    [Group("All todos", Groom(todos, s, collate))]
  }

  /** `getGroupByGroups`: the groups the settings ask for. */
  function GroupByGroups(todos: seq<TodoItem>, values: map<string, seq<AttrValue>>, s: Settings,
                         collate: string -> int): Option<seq<Group>>
  {
    match s.groupBy.option
    case GroupByAttribute => GroupsByAttribute(todos, values, AttributeKey(s.groupBy.attributeName), s, collate)
    case GroupByStatus => Some(GroupsByStatus(todos, s, collate))
    case NoGrouping => Some(NoGroups(todos, s, collate))
  }

  /** `filterEmptyGroups`. */
  function FilterEmptyGroups(groups: seq<Group>): seq<Group> {
    Filter(groups, NonEmpty)
  }

  /** `todo.attributes && todo.attributes.selected`, as a truth value. */
  predicate IsSelected(t: TodoItem) {
    Truthy(Get(t.attributes, "selected"))
  }

  /** `getSelectedGroup`: the shown selected todos at every depth, groomed;
      `None` when the flattening throws. */
  function SelectedGroup(todos: seq<TodoItem>, s: Settings, collate: string -> int): Option<Group> {
    match AllTodosAsWritten(todos)
    case None => None
    case Some(all) => Some(Group("Selected tasks", Groom(Filter(all, IsSelected), s, collate)))
  }

  /** The selected group exists exactly when the flattening does not throw;
      it then holds the shown selected todos at every depth, in particular a
      selected subtask of a todo it holds. */
  lemma SelectedGroupSpec(todos: seq<TodoItem>, s: Settings, collate: string -> int)
    ensures SelectedGroup(todos, s, collate).Some? <==> todos != [] && NoEmptySubtasks(todos)
    ensures SelectedGroup(todos, s, collate).Some? ==>
      forall t :: t in SelectedGroup(todos, s, collate).value.todos <==> t in Flatten(todos) && IsSelected(t) && Shown(t, s)
    ensures SelectedGroup(todos, s, collate).Some? ==>
      forall t, u :: t in Flatten(todos) && t.subtasks.SubtaskList? && u in t.subtasks.items && IsSelected(u) && Shown(u, s) ==>
        u in SelectedGroup(todos, s, collate).value.todos
  {
    AllTodosAgree(todos);
    if SelectedGroup(todos, s, collate).Some? {
      var g := SelectedGroup(todos, s, collate).value;
      forall t ensures t in g.todos <==> t in Flatten(todos) && IsSelected(t) && Shown(t, s) {
        GroomMembers(Filter(Flatten(todos), IsSelected), s, collate, t);
      }
      FlattenClosed(todos);
    }
  }

  /** The top level of the tree from the groups: the selected group, then
      the due group, then the groups, without the empty ones unless
      `showEmpty`. */
  function TopLevel(groups: seq<Group>, selected: Group, due: Group, s: Settings): seq<Group> {
    var shown := if !s.showEmpty then FilterEmptyGroups(groups) else groups;
    var withDue := if s.showDueOnTop then [due] + shown else shown;
    if s.showSelectedOnTop then [selected] + withDue else withDue
  }

  /** `getChildren` at the top level. The due group's todos `due` are
      decided by the clock and given here; building the due group or the
      selected group flattens the folder's todos, which throws when the
      flattening as written does. */
  function Children(todos: seq<TodoItem>, values: map<string, seq<AttrValue>>, due: seq<TodoItem>,
                    s: Settings, collate: string -> int): Option<seq<Group>>
  {
    var selected := SelectedGroup(todos, s, collate);
    if (s.showSelectedOnTop || s.showDueOnTop) && AllTodosAsWritten(todos).None? then None
    else
      match GroupByGroups(todos, values, s, collate)
      case None => None
      case Some(groups) =>
        Some(TopLevel(groups, if selected.Some? then selected.value else Group("Selected tasks", []), Group("Due", due), s))
  }

  /** The selected and due groups come first when enabled, and stay even
      when empty; the groups follow in their order, and when `showEmpty` is
      off exactly the non-empty ones remain. */
  lemma TopLevelSpec(groups: seq<Group>, selected: Group, due: Group, s: Settings)
    ensures var r, top := TopLevel(groups, selected, due, s), (if s.showSelectedOnTop then 1 else 0) + (if s.showDueOnTop then 1 else 0);
      && top <= |r|
      && (s.showSelectedOnTop ==> r[0] == selected)
      && (s.showDueOnTop ==> r[top - 1] == due)
      && Subseq(r[top..], groups)
      && (s.showEmpty ==> r[top..] == groups)
      && (!s.showEmpty ==> forall g :: g in r[top..] <==> g in groups && g.todos != [])
  {
    var shown := if !s.showEmpty then FilterEmptyGroups(groups) else groups;
    var r, top := TopLevel(groups, selected, due, s), (if s.showSelectedOnTop then 1 else 0) + (if s.showDueOnTop then 1 else 0);
    assert r[top..] == shown;
    if !s.showEmpty {
      FilterSubseq(groups, NonEmpty);
    } else {
      SubseqRefl(groups);
    }
  }

  /** The top level fails exactly when the grouping does, or when the
      selected or due group is on and the flattening throws (an empty folder,
      or an empty subtask list); otherwise it arranges the groups the
      settings ask for around the selected and due groups. */
  lemma ChildrenSpec(todos: seq<TodoItem>, values: map<string, seq<AttrValue>>, due: seq<TodoItem>,
                     s: Settings, collate: string -> int)
    ensures Children(todos, values, due, s, collate).Some? <==>
      && GroupByGroups(todos, values, s, collate).Some?
      && (s.showSelectedOnTop || s.showDueOnTop ==> todos != [] && NoEmptySubtasks(todos))
    ensures Children(todos, values, due, s, collate).Some? && s.showSelectedOnTop ==>
      && SelectedGroup(todos, s, collate).Some?
      && Children(todos, values, due, s, collate).value
        == TopLevel(GroupByGroups(todos, values, s, collate).value, SelectedGroup(todos, s, collate).value, Group("Due", due), s)
    ensures Children(todos, values, due, s, collate).Some? && !s.showSelectedOnTop ==>
      forall g :: Children(todos, values, due, s, collate).value
        == TopLevel(GroupByGroups(todos, values, s, collate).value, g, Group("Due", due), s)
    ensures (s.showSelectedOnTop || s.showDueOnTop) && todos == [] ==> Children(todos, values, due, s, collate).None?
    ensures s.groupBy.option != GroupByAttribute ==> GroupByGroups(todos, values, s, collate).Some?
    ensures s.groupBy.option == GroupByAttribute ==>
      (GroupByGroups(todos, values, s, collate).Some? <==> AttributeKey(s.groupBy.attributeName) in values)
  {
    AllTodosAgree(todos);
  }
}
