/** The board as agents see it: listing columns, and the active tasks of one agent. */
module KanbanPrompt {
  import opened Wrappers
  import opened Text
  import opened Kanban

  /** How the text of a file is read as the task with a given id. */
  type Parser = (string, string) -> Result<Task, BoardError>

  function ColumnParser(codec: Codec, column: Dir): Parser {
    (id, content) => ParseTask(codec, id, column, content)
  }

  ghost predicate KeepsIds(parse: Parser) {
    forall id, content :: parse(id, content).Ok? ==> parse(id, content).value.id == id
  }

  /** A task file that can be read, as the task it holds. */
  ghost predicate ListedBy(parse: Parser, files: Column, task: Task) {
    FileOf(task.id) in files && parse(task.id, files[FileOf(task.id)]) == Ok(task)
  }

  ghost predicate Listed(codec: Codec, column: Dir, files: Column, task: Task) {
    FileOf(task.id) in files && ParseTask(codec, task.id, column, files[FileOf(task.id)]) == Ok(task)
  }

  /** The task that a file of the column holds, if it holds one. */
  function TaskAt(parse: Parser, files: Column, f: string): seq<Task> {
    if f !in files || !HasSuffix(f, ".md") then []
    else
      match parse(TrimSuffix(f, ".md"), files[f])
      case Err(_) => []
      case Ok(task) => [task]
  }

  function TaskReader(parse: Parser, files: Column): string -> seq<Task> {
    f => TaskAt(parse, files, f)
  }

  /** `tasks` are the readable tasks of the given files, each once. */
  ghost predicate Lists(parse: Parser, files: Column, names: seq<string>, tasks: seq<Task>) {
    && (forall t :: t in tasks <==> ListedBy(parse, files, t) && FileOf(t.id) in names)
    && (forall i, j :: 0 <= i < j < |tasks| ==> tasks[i].id != tasks[j].id)
  }

  lemma ListsSkipped(parse: Parser, files: Column, names: seq<string>, tasks: seq<Task>, f: string)
    requires Lists(parse, files, names, tasks)
    requires forall t :: ListedBy(parse, files, t) ==> FileOf(t.id) != f
    ensures Lists(parse, files, names + [f], tasks)
  {}

  lemma ListsTaken(parse: Parser, files: Column, names: seq<string>, tasks: seq<Task>, task: Task)
    requires Lists(parse, files, names, tasks) && FileOf(task.id) !in names && ListedBy(parse, files, task)
    ensures Lists(parse, files, names + [FileOf(task.id)], tasks + [task])
  {
    forall t: Task | FileOf(t.id) == FileOf(task.id) && ListedBy(parse, files, t) ensures t == task {
      OneTaskPerFile(parse, files, t, task);
    }
    assert forall t :: t in tasks ==> t.id != task.id;
  }

  lemma OneTaskPerFile(parse: Parser, files: Column, a: Task, b: Task)
    requires ListedBy(parse, files, a) && ListedBy(parse, files, b) && FileOf(a.id) == FileOf(b.id)
    ensures a == b
  {
    SuffixOfFile(a.id);
    SuffixOfFile(b.id);
  }

  lemma ListsMore(parse: Parser, files: Column, names: seq<string>, tasks: seq<Task>, f: string)
    requires Lists(parse, files, names, tasks) && KeepsIds(parse) && f in files && f !in names
    ensures Lists(parse, files, names + [f], tasks + TaskAt(parse, files, f))
  {
    var found := TaskAt(parse, files, f);
    if HasSuffix(f, ".md") {
      var id := TrimSuffix(f, ".md");
      assert FileOf(id) == f;
      if found != [] {
        ListsTaken(parse, files, names, tasks, found[0]);
        return;
      }
      forall t: Task | FileOf(t.id) == f ensures t.id == id { SuffixOfFile(t.id); }
    } else {
      forall t: Task ensures FileOf(t.id) != f { SuffixOfFile(t.id); }
    }
    ListsSkipped(parse, files, names, tasks, f);
    assert tasks + [] == tasks;
  }

  lemma {:induction false} GatheredIsListed(parse: Parser, files: Column, order: seq<string>, n: nat)
    requires n <= |order| && KeepsIds(parse) && forall f :: f in order ==> f in files
    requires forall i, j :: 0 <= i < j < |order| ==> order[i] != order[j]
    ensures Lists(parse, files, order[..n], Gather(TaskReader(parse, files), order, n))
  {
    if n > 0 {
      var f := order[n - 1];
      GatheredIsListed(parse, files, order, n - 1);
      assert f in order && f !in order[..n - 1] && order[..n] == order[..n - 1] + [f];
      ListsMore(parse, files, order[..n - 1], Gather(TaskReader(parse, files), order, n - 1), f);
    }
  }

  lemma WholeListing(codec: Codec, column: Dir, files: Column, order: seq<string>, tasks: seq<Task>)
    requires Lists(ColumnParser(codec, column), files, order, tasks) && forall f :: f in order <==> f in files
    ensures forall t :: t in tasks <==> Listed(codec, column, files, t)
    ensures forall i, j :: 0 <= i < j < |tasks| ==> tasks[i].id != tasks[j].id
  {
    forall t ensures t in tasks <==> Listed(codec, column, files, t) {
      assert FileOf(t.id) in order <==> FileOf(t.id) in files;
    }
  }

  lemma ColumnParserKeepsIds(codec: Codec, column: Dir)
    ensures KeepsIds(ColumnParser(codec, column))
  {}

  /** One file: those without the suffix and malformed tasks are skipped. */
  method ReadTask(parse: Parser, files: Column, f: string) returns (found: seq<Task>)
    requires f in files
    ensures found == TaskAt(parse, files, f)
  {
    if !HasSuffix(f, ".md") { return []; }
    var task := parse(TrimSuffix(f, ".md"), files[f]);
    found := if task.Ok? then [task.value] else [];
  }

  method ReadAll(parse: Parser, files: Column, order: seq<string>) returns (tasks: seq<Task>)
    requires forall f :: f in order ==> f in files
    ensures tasks == Gather(TaskReader(parse, files), order, |order|)
  {
    tasks := [];
    for i := 0 to |order|
      invariant tasks == Gather(TaskReader(parse, files), order, i)
    {
      assert order[i] in order;
      var found := ReadTask(parse, files, order[i]);
      tasks := tasks + found;
    }
  }

  /** `order` is the directory listing. */
  method ListColumn(codec: Codec, column: Dir, files: Column, order: seq<string>) returns (tasks: seq<Task>)
    requires forall f :: f in order <==> f in files
    requires forall i, j :: 0 <= i < j < |order| ==> order[i] != order[j]
    ensures tasks == Gather(TaskReader(ColumnParser(codec, column), files), order, |order|)
    ensures forall t :: t in tasks <==> Listed(codec, column, files, t)
    ensures forall i, j :: 0 <= i < j < |tasks| ==> tasks[i].id != tasks[j].id
  {
    var parse := ColumnParser(codec, column);
    tasks := ReadAll(parse, files, order);
    ColumnParserKeepsIds(codec, column);
    GatheredIsListed(parse, files, order, |order|);
    assert order[..|order|] == order;
    WholeListing(codec, column, files, order, tasks);
  }

  // ----- one agent's tasks -----

  datatype Item = Item(column: Dir, task: Task)

  type Listing = map<Dir, seq<Task>>

  predicate Shows(agent: string, default: string, task: Task) {
    task.header.assignee == agent || (task.header.assignee == "" && agent == default)
  }

  /** How often an agent's list holds an item: as often as the board lists it, if it is the agent's and not done. */
  function Count(all: Listing, agent: string, default: string, x: Item): nat {
    if Shows(agent, default, x.task) then Active(all, x) else 0
  }

  /** How often the board lists an item that is not done. */
  function Active(all: Listing, x: Item): nat {
    if x.column in all && x.column != Finished then multiset(all[x.column])[x.task] else 0
  }

  function ColumnName(c: Dir): string {
    match c
    case Backlog => "backlog"
    case InProgress => "in-progress"
    case Review => "review"
    case Finished => "done"
    case OtherDir(name) => name
  }

  function Line(agent: string, x: Item): string {
    "- [" + x.task.id + "] " + x.task.header.title + " [" + ColumnName(x.column) + "] ("
    + (if x.task.header.assignee == agent then "assigned to you" else "unassigned") + ")"
  }

  /** A line tells the task's id and title, its column, and whether it is assigned to the reader. */
  lemma LineTells(agent: string, task: Task)
    ensures var tail := if task.header.assignee == agent then "] (assigned to you)" else "] (unassigned)";
            var start := "- [" + task.id + "] " + task.header.title + " [";
            && Line(agent, Item(Backlog, task)) == start + "backlog" + tail
            && Line(agent, Item(InProgress, task)) == start + "in-progress" + tail
            && Line(agent, Item(Review, task)) == start + "review" + tail
            && Line(agent, Item(Finished, task)) == start + "done" + tail
            && forall name :: Line(agent, Item(OtherDir(name), task)) == start + name + tail
  {
    var start := "- [" + task.id + "] " + task.header.title + " [";
    var note := if task.header.assignee == agent then "assigned to you" else "unassigned";
    assert "] (" + note + ")" == if task.header.assignee == agent then "] (assigned to you)" else "] (unassigned)";
    forall c: Dir ensures Line(agent, Item(c, task)) == start + ColumnName(c) + ("] (" + note + ")") {
      assert "- [" + task.id + "] " + task.header.title + " [" == start;
    }
  }

  function Lines(agent: string, shown: seq<Item>): (lines: seq<string>)
    ensures |lines| == |shown| && forall i :: 0 <= i < |lines| ==> lines[i] == Line(agent, shown[i])
  {
    seq(|shown|, i requires 0 <= i < |shown| => Line(agent, shown[i]))
  }

  lemma LinesAppend(agent: string, shown: seq<Item>, more: seq<Item>)
    ensures Lines(agent, shown + more) == Lines(agent, shown) + Lines(agent, more)
  {}

  /** The heading and one line for each item, or nothing at all. */
  function PromptText(agent: string, shown: seq<Item>): (text: string)
    ensures text == "" <==> shown == []
    ensures shown != [] ==> HasPrefix(text, "## Active Tasks\n") && text[16..] == Join(Lines(agent, shown), "\n")
  {
    if shown == [] then "" else "## Active Tasks\n" + Join(Lines(agent, shown), "\n")
  }

  /** The agent's items among the first `n` tasks of a column, in order. */
  function ShownIn(column: Dir, tasks: seq<Task>, n: nat, agent: string, default: string): seq<Item>
    requires n <= |tasks|
  {
    if n == 0 then []
    else
      ShownIn(column, tasks, n - 1, agent, default)
      + if Shows(agent, default, tasks[n - 1]) then [Item(column, tasks[n - 1])] else []
  }

  /** The agent's items in the first `n` columns of an order of the columns; done ones are passed over. */
  function ShownAll(all: Listing, order: seq<Dir>, n: nat, agent: string, default: string): seq<Item>
    requires n <= |order| && forall c :: c in order ==> c in all
  {
    if n == 0 then []
    else
      var c := order[n - 1];
      ShownAll(all, order, n - 1, agent, default)
      + if c == Finished then [] else ShownIn(c, all[c], |all[c]|, agent, default)
  }

  /** What is shown of more tasks, or of more columns, comes after what is shown of fewer. */
  lemma {:induction false} ShownInOrder(column: Dir, tasks: seq<Task>, m: nat, n: nat, agent: string, default: string)
    requires m <= n <= |tasks|
    ensures ShownIn(column, tasks, m, agent, default) <= ShownIn(column, tasks, n, agent, default)
    decreases n
  {
    if m < n { ShownInOrder(column, tasks, m, n - 1, agent, default); }
  }

  lemma {:induction false} ColumnsInOrder(all: Listing, order: seq<Dir>, m: nat, n: nat, agent: string, default: string)
    requires m <= n <= |order| && forall c :: c in order ==> c in all
    ensures ShownAll(all, order, m, agent, default) <= ShownAll(all, order, n, agent, default)
    decreases n
  {
    if m < n {
      ColumnsInOrder(all, order, m, n - 1, agent, default);
      OneColumnAfter(all, order, n, agent, default);
    }
  }

  lemma OneColumnAfter(all: Listing, order: seq<Dir>, n: nat, agent: string, default: string)
    requires 0 < n <= |order| && forall c :: c in order ==> c in all
    ensures ShownAll(all, order, n - 1, agent, default) <= ShownAll(all, order, n, agent, default)
  {}

  /** Every column once. */
  ghost predicate IsOrder(order: seq<Dir>, all: Listing) {
    && (forall c :: c in order <==> c in all)
    && (forall i, j :: 0 <= i < j < |order| ==> order[i] != order[j])
  }

  /** The loop over one column. */
  method FormatColumn(column: Dir, tasks: seq<Task>, agent: string, default: string) returns (lines: seq<string>)
    ensures lines == Lines(agent, ShownIn(column, tasks, |tasks|, agent, default))
  {
    lines := [];
    for i := 0 to |tasks|
      invariant lines == Lines(agent, ShownIn(column, tasks, i, agent, default))
    {
      var task := tasks[i];
      var show, why := false, "";
      if task.header.assignee == agent {
        show, why := true, "assigned to you";
      } else if task.header.assignee == "" && agent == default {
        show, why := true, "unassigned";
      }
      if show {
        LinesAppend(agent, ShownIn(column, tasks, i, agent, default), [Item(column, task)]);
        assert Line(agent, Item(column, task))
            == "- [" + task.id + "] " + task.header.title + " [" + ColumnName(column) + "] (" + why + ")";
        lines := lines + ["- [" + task.id + "] " + task.header.title + " [" + ColumnName(column) + "] (" + why + ")"];
      }
    }
  }

  /** The columns taken so far, in order, and those still to do. */
  ghost predicate Taken(all: Listing, order: seq<Dir>, todo: set<Dir>) {
    && todo <= all.Keys
    && (forall c :: c in order <==> c in all && c !in todo)
    && (forall i, j :: 0 <= i < j < |order| ==> order[i] != order[j])
  }

  lemma TakenMore(all: Listing, order: seq<Dir>, todo: set<Dir>, column: Dir)
    requires Taken(all, order, todo) && column in todo
    ensures Taken(all, order + [column], todo - {column})
  {
    assert column !in order;
  }

  /** The prompt text of one agent, with the columns in arbitrary order, as from a Go map. */
  method FormatForAgent(all: Listing, agent: string, default: string) returns (text: string)
    ensures exists order ::
              IsOrder(order, all) && text == PromptText(agent, ShownAll(all, order, |order|, agent, default))
  {
    var lines: seq<string> := [];
    ghost var order: seq<Dir> := [];
    var todo := all.Keys;
    while todo != {}
      invariant Taken(all, order, todo)
      invariant lines == Lines(agent, ShownAll(all, order, |order|, agent, default))
      decreases |todo|
    {
      var column :| column in todo;
      OneMoreColumn(all, order, column, agent, default);
      TakenMore(all, order, todo, column);
      todo, order := todo - {column}, order + [column];
      if column != Finished {
        var more := FormatColumn(column, all[column], agent, default);
        lines := lines + more;
      }
    }
    assert IsOrder(order, all);
    text := if |lines| == 0 then "" else "## Active Tasks\n" + Join(lines, "\n");
  }

  lemma {:induction false} ShownPrefix(all: Listing, order: seq<Dir>, more: seq<Dir>, n: nat,
                                       agent: string, default: string)
    requires n <= |order| && forall c :: c in order + more ==> c in all
    ensures forall c :: c in order ==> c in all
    ensures ShownAll(all, order + more, n, agent, default) == ShownAll(all, order, n, agent, default)
  {
    assert forall c :: c in order ==> c in order + more;
    if n > 0 { ShownPrefix(all, order, more, n - 1, agent, default); }
  }

  lemma OneMoreColumn(all: Listing, order: seq<Dir>, column: Dir, agent: string, default: string)
    requires column in all && forall c :: c in order ==> c in all
    ensures forall c :: c in order + [column] ==> c in all
    ensures Lines(agent, ShownAll(all, order + [column], |order| + 1, agent, default))
         == Lines(agent, ShownAll(all, order, |order|, agent, default))
            + if column == Finished then []
              else Lines(agent, ShownIn(column, all[column], |all[column]|, agent, default))
  {
    ShownPrefix(all, order, [column], |order|, agent, default);
    var shown := ShownAll(all, order, |order|, agent, default);
    LinesAppend(agent, shown,
                if column == Finished then [] else ShownIn(column, all[column], |all[column]|, agent, default));
  }

  // ----- the column order does not matter -----

  lemma CountAppend<T>(a: seq<T>, b: seq<T>, x: T)
    ensures multiset(a + b)[x] == multiset(a)[x] + multiset(b)[x]
  {
    assert multiset(a + b) == multiset(a) + multiset(b);
  }

  lemma CountPrefix<T>(s: seq<T>, n: nat, x: T)
    requires 1 <= n <= |s|
    ensures multiset(s[..n])[x] == multiset(s[..n - 1])[x] + if s[n - 1] == x then 1 else 0
  {
    assert s[..n] == s[..n - 1] + [s[n - 1]];
    CountAppend(s[..n - 1], [s[n - 1]], x);
  }

  lemma InPrefix<T>(s: seq<T>, n: nat, x: T)
    requires 1 <= n <= |s|
    ensures x in s[..n] <==> x in s[..n - 1] || s[n - 1] == x
  {
    assert s[..n] == s[..n - 1] + [s[n - 1]];
  }

  lemma NotBefore<T>(s: seq<T>, n: nat)
    requires 1 <= n <= |s| && forall i, j :: 0 <= i < j < |s| ==> s[i] != s[j]
    ensures s[n - 1] !in s[..n - 1]
  {}

  predicate ShowsHere(column: Dir, agent: string, default: string, x: Item) {
    x.column == column && Shows(agent, default, x.task)
  }

  lemma TaskAdds(column: Dir, tasks: seq<Task>, n: nat, agent: string, default: string, x: Item)
    requires 1 <= n <= |tasks|
    ensures TimesShown(column, tasks, n, agent, default, x)
         == TimesShown(column, tasks, n - 1, agent, default, x)
            + if ShowsHere(column, agent, default, x) && tasks[n - 1] == x.task then 1 else 0
  {
    assert x == Item(x.column, x.task);
    var here := if Shows(agent, default, tasks[n - 1]) then [Item(column, tasks[n - 1])] else [];
    CountAppend(ShownIn(column, tasks, n - 1, agent, default), here, x);
  }

  /** How often an item occurs among the agent's items of the first `n` tasks. */
  function TimesShown(column: Dir, tasks: seq<Task>, n: nat, agent: string, default: string, x: Item): nat
    requires n <= |tasks|
  {
    multiset(ShownIn(column, tasks, n, agent, default))[x]
  }

  lemma {:induction false} ShownInCount(column: Dir, tasks: seq<Task>, n: nat, agent: string, default: string, x: Item)
    requires n <= |tasks|
    ensures TimesShown(column, tasks, n, agent, default, x)
         == if ShowsHere(column, agent, default, x) then multiset(tasks[..n])[x.task] else 0
  {
    if n == 0 {
      assert ShownIn(column, tasks, 0, agent, default) == [] && tasks[..0] == [];
    } else {
      ShownInCount(column, tasks, n - 1, agent, default, x);
      TaskAdds(column, tasks, n, agent, default, x);
      CountPrefix(tasks, n, x.task);
    }
  }

  lemma ColumnCount(all: Listing, c: Dir, agent: string, default: string, x: Item)
    requires c in all
    ensures multiset(if c == Finished then [] else ShownIn(c, all[c], |all[c]|, agent, default))[x]
         == if x.column == c then Count(all, agent, default, x) else 0
  {
    ShownInCount(c, all[c], |all[c]|, agent, default, x);
    assert all[c][..|all[c]|] == all[c];
  }

  /** One more column adds the agent's items of that column. */
  lemma ColumnAdds(all: Listing, order: seq<Dir>, n: nat, agent: string, default: string, x: Item)
    requires 1 <= n <= |order| && forall c :: c in order ==> c in all
    ensures multiset(ShownAll(all, order, n, agent, default))[x]
         == multiset(ShownAll(all, order, n - 1, agent, default))[x]
            + if x.column == order[n - 1] then Count(all, agent, default, x) else 0
  {
    var c := order[n - 1];
    ColumnCount(all, c, agent, default, x);
    CountAppend(ShownAll(all, order, n - 1, agent, default),
                if c == Finished then [] else ShownIn(c, all[c], |all[c]|, agent, default), x);
  }

  /** An agent's list holds each item as often as the board lists it, if it is the agent's and not done. */
  lemma {:induction false} ShownAllCount(all: Listing, order: seq<Dir>, n: nat, agent: string, default: string, x: Item)
    requires n <= |order| && IsOrder(order, all)
    ensures multiset(ShownAll(all, order, n, agent, default))[x]
         == if x.column in order[..n] then Count(all, agent, default, x) else 0
  {
    if n > 0 {
      ShownAllCount(all, order, n - 1, agent, default, x);
      ColumnAdds(all, order, n, agent, default, x);
      InPrefix(order, n, x.column);
      NotBefore(order, n);
    }
  }

  /** Whatever order the columns come in, the same items are shown, as often, and so are their lines. */
  lemma ColumnOrderDoesNotMatter(all: Listing, order1: seq<Dir>, order2: seq<Dir>, agent: string, default: string)
    requires IsOrder(order1, all) && IsOrder(order2, all)
    ensures var a := ShownAll(all, order1, |order1|, agent, default);
            var b := ShownAll(all, order2, |order2|, agent, default);
            multiset(a) == multiset(b) && multiset(Lines(agent, a)) == multiset(Lines(agent, b))
  {
    var a, b := ShownAll(all, order1, |order1|, agent, default), ShownAll(all, order2, |order2|, agent, default);
    forall x ensures multiset(a)[x] == multiset(b)[x] {
      ListHolds(all, order1, agent, default, x);
      ListHolds(all, order2, agent, default, x);
    }
    SameLines(agent, a, b);
  }

  /** An agent's whole list holds its own items that are not done, as often as the board lists them. */
  lemma ListHolds(all: Listing, order: seq<Dir>, agent: string, default: string, x: Item)
    requires IsOrder(order, all)
    ensures multiset(ShownAll(all, order, |order|, agent, default))[x] == Count(all, agent, default, x)
  {
    ShownAllCount(all, order, |order|, agent, default, x);
    assert order[..|order|] == order;
  }

  function Without<T>(s: seq<T>, j: nat): seq<T>
    requires j < |s|
  {
    s[..j] + s[j + 1..]
  }

  lemma TakeOut<T>(s: seq<T>, j: nat)
    requires j < |s|
    ensures multiset(s) == multiset(Without(s, j)) + multiset{s[j]}
  {
    assert s == s[..j] + ([s[j]] + s[j + 1..]);
  }

  lemma TakeOutLine(agent: string, s: seq<Item>, j: nat)
    requires j < |s|
    ensures multiset(Lines(agent, s)) == multiset(Lines(agent, Without(s, j))) + multiset{Line(agent, s[j])}
  {
    TakeOut(Lines(agent, s), j);
    assert Lines(agent, Without(s, j)) == Without(Lines(agent, s), j);
  }

  lemma Cancel<T>(a: multiset<T>, b: multiset<T>, x: multiset<T>)
    requires a + x == b + x
    ensures a == b
  {
    assert a == (a + x) - x;
    assert b == (b + x) - x;
  }

  /** The same items give the same lines, in whatever order. */
  lemma {:induction false} SameLines(agent: string, a: seq<Item>, b: seq<Item>)
    requires multiset(a) == multiset(b)
    ensures multiset(Lines(agent, a)) == multiset(Lines(agent, b))
    decreases |a|
  {
    if a == [] {
      assert |b| == |multiset(b)| == 0;
    } else {
      assert a[0] in multiset(b);
      var j :| 0 <= j < |b| && b[j] == a[0];
      TakeOut(a, 0);
      TakeOut(b, j);
      Cancel(multiset(Without(a, 0)), multiset(Without(b, j)), multiset{a[0]});
      SameLines(agent, Without(a, 0), Without(b, j));
      TakeOutLine(agent, a, 0);
      TakeOutLine(agent, b, j);
    }
  }

  // ----- every task has one reader -----

  /** Whose list an active task belongs to. */
  function Owner(default: string, task: Task): string {
    if task.header.assignee == "" then default else task.header.assignee
  }

  /** Among agents with names, an item is in the list of its owner, as often as listed, and in no other. */
  lemma OnlyOwnerShows(all: Listing, order: seq<Dir>, agent: string, default: string, x: Item)
    requires agent != "" && IsOrder(order, all)
    ensures multiset(ShownAll(all, order, |order|, agent, default))[x]
         == if agent == Owner(default, x.task) then Active(all, x) else 0
  {
    ListHolds(all, order, agent, default, x);
  }

  /** Each agent of the roster has its list, with the columns in some order of its own. */
  ghost predicate Orders(orders: seq<seq<Dir>>, all: Listing, roster: seq<string>) {
    |orders| == |roster| && forall i :: 0 <= i < |orders| ==> IsOrder(orders[i], all)
  }

  /** How often the lists of the first `n` agents hold an item, together. */
  ghost function TotalShown(all: Listing, orders: seq<seq<Dir>>, roster: seq<string>, n: nat,
                            default: string, x: Item): nat
    requires n <= |roster| && Orders(orders, all, roster)
  {
    if n == 0 then 0
    else
      TotalShown(all, orders, roster, n - 1, default, x)
      + multiset(ShownAll(all, orders[n - 1], |orders[n - 1]|, roster[n - 1], default))[x]
  }

  /**
   Over a roster of distinct named agents, the lists together hold each active task exactly as often
   as the board lists it if its owner is in the roster, and not at all otherwise.
   */
  lemma {:induction false} RosterPartitions(all: Listing, orders: seq<seq<Dir>>, roster: seq<string>, n: nat,
                                            default: string, x: Item)
    requires n <= |roster| && "" !in roster && Orders(orders, all, roster)
    requires forall i, j :: 0 <= i < j < |roster| ==> roster[i] != roster[j]
    ensures TotalShown(all, orders, roster, n, default, x)
         == if Owner(default, x.task) in roster[..n] then Active(all, x) else 0
  {
    if n > 0 {
      RosterPartitions(all, orders, roster, n - 1, default, x);
      assert roster[n - 1] in roster;
      OnlyOwnerShows(all, orders[n - 1], roster[n - 1], default, x);
      InPrefix(roster, n, Owner(default, x.task));
    }
  }

  /** Each listed task that is not done and unassigned or assigned within the roster is in exactly one agent's list. */
  lemma ExactlyOneReader(all: Listing, orders: seq<seq<Dir>>, roster: seq<string>, default: string, x: Item)
      returns (r: nat)
    requires "" !in roster && default in roster && Orders(orders, all, roster)
    requires forall i, j :: 0 <= i < j < |roster| ==> roster[i] != roster[j]
    requires x.column in all && x.column != Finished && x.task in all[x.column]
    requires x.task.header.assignee == "" || x.task.header.assignee in roster
    ensures r < |roster|
    ensures forall i :: 0 <= i < |roster| ==>
              (x in ShownAll(all, orders[i], |orders[i]|, roster[i], default) <==> i == r)
  {
    var owner := Owner(default, x.task);
    r :| r < |roster| && roster[r] == owner;
    forall i | 0 <= i < |roster|
      ensures x in ShownAll(all, orders[i], |orders[i]|, roster[i], default) <==> i == r
    {
      assert roster[i] in roster;
      OnlyOwnerShows(all, orders[i], roster[i], default, x);
    }
  }

  /** A task that is done is in no list. */
  lemma DoneIsShownToNobody(all: Listing, order: seq<Dir>, agent: string, default: string, task: Task)
    requires IsOrder(order, all)
    ensures Item(Finished, task) !in ShownAll(all, order, |order|, agent, default)
  {
    ListHolds(all, order, agent, default, Item(Finished, task));
  }
}
