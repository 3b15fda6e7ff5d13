/**
 Accepting an Excel import: one pass over the rows creates draft Tasks, a second one links their
 predecessors under the graph lock. What cannot be done is recorded as a review item, never dropped.
 */
module PlanImport {
  import opened Prelude
  import opened Digraph
  import opened DependencyRows

  /** A sheet row: its cells by header, in column order; an empty cell is the empty string. */
  datatype SheetRow = SheetRow(number: nat, values: seq<(string, string)>)

  /** What the names in a row can be resolved to; `applications` are those in the Event's scope. */
  datatype Lookups = Lookups(teams: map<string, Id>, applications: map<string, Id>, users: map<string, Id>)

  datatype Input = Input(event: Id, rows: seq<SheetRow>, mapping: map<string, string>, lookups: Lookups)

  datatype Context = InApplication(id: Id) | InWorkStream(name: string)

  datatype Draft = Draft(title: string, team: Id, context: Context, assignee: Option<Id>, assigneeUnknown: bool, predecessors: string)

  datatype Reason = MissingTitle | NoTeam | NoContext | UnknownAssignee | UnknownPredecessor(name: string) | WouldCycle(name: string)

  datatype Target = ToJob | ToTask(task: Node)

  /** Which row, or which predecessor piece of which row, a review item is about. */
  datatype About = RowRefused(row: nat) | RowAssignee(row: nat) | Piece(row: nat, piece: nat)

  datatype Item = Item(about: About, target: Target, reason: Reason)

  // ---- text -------------------------------------------------------------------------------------

  /** The ASCII characters that `str.strip` takes off. */
  predicate Blank(c: char) {
    c == ' ' || '\t' <= c <= '\r' || '\U{1C}' <= c <= '\U{1F}'
  }

  function Strip(s: string): (r: string)
    ensures r == "" || (!White(r[0]) && !White(r[|r| - 1]))
    ensures |r| <= |s|
  {
    if s == "" then ""
    else if Blank(s[0]) then Strip(s[1..])
    else if Blank(s[|s| - 1]) then Strip(s[..|s| - 1])
    else s
  }

  ghost predicate White(c: char) {
    c == ' ' || 9 <= c as int <= 13 || 28 <= c as int <= 31
  }

  ghost predicate AllWhite(s: string) {
    forall i :: 0 <= i < |s| ==> White(s[i])
  }

  lemma WhiteAround(c: char, s: string)
    requires White(c) && AllWhite(s)
    ensures AllWhite([c] + s) && AllWhite(s + [c])
  {
  }

  ghost predicate Stripped(s: string, front: string, r: string, back: string) {
    s == front + r + back && AllWhite(front) && AllWhite(back)
  }

  lemma StripFront(s: string, front: string, r: string, back: string)
    requires s != "" && White(s[0]) && Stripped(s[1..], front, r, back)
    ensures Stripped(s, [s[0]] + front, r, back)
  {
    WhiteAround(s[0], front);
    assert s == [s[0]] + s[1..];
    assert [s[0]] + (front + r + back) == [s[0]] + front + r + back;
  }

  lemma StripBack(s: string, front: string, r: string, back: string)
    requires s != "" && White(s[|s| - 1]) && Stripped(s[..|s| - 1], front, r, back)
    ensures Stripped(s, front, r, back + [s[|s| - 1]])
  {
    WhiteAround(s[|s| - 1], back);
    assert s == s[..|s| - 1] + [s[|s| - 1]];
    assert (front + r + back) + [s[|s| - 1]] == front + r + (back + [s[|s| - 1]]);
  }

  /** Stripping takes off a blank front and a blank back and nothing else. */
  lemma {:induction false} StripIs(s: string) returns (front: string, back: string)
    ensures s == front + Strip(s) + back && AllWhite(front) && AllWhite(back)
    decreases |s|
  {
    front, back := "", "";
    if s == "" {
    } else if Blank(s[0]) {
      front, back := StripIs(s[1..]);
      StripFront(s, front, Strip(s), back);
      front := [s[0]] + front;
    } else if Blank(s[|s| - 1]) {
      front, back := StripIs(s[..|s| - 1]);
      StripBack(s, front, Strip(s), back);
      back := back + [s[|s| - 1]];
    }
  }

  function LowerChar(c: char): char {
    if 'A' <= c <= 'Z' then c - 'A' + 'a' else c
  }

  function Lower(s: string): (r: string)
    ensures |r| == |s|
    ensures forall i :: 0 <= i < |s| ==> r[i] == if 'A' <= s[i] <= 'Z' then s[i] - 'A' + 'a' else s[i]
  {
    seq(|s|, i requires 0 <= i < |s| => LowerChar(s[i]))
  }

  function Split(s: string): (r: seq<string>)
    ensures |r| >= 1
  {
    if s == "" then [""]
    else
      var rest := Split(s[1..]);
      if s[0] == ',' then [""] + rest else [[s[0]] + rest[0]] + rest[1..]
  }

  ghost function Joined(pieces: seq<string>): string {
    if pieces == [] then "" else if |pieces| == 1 then pieces[0] else pieces[0] + "," + Joined(pieces[1..])
  }

  /** Split at every comma and nowhere else: the pieces joined by commas are the cell, and none holds a comma. */
  lemma {:induction false} SplitIs(s: string)
    ensures Joined(Split(s)) == s
    ensures forall i :: 0 <= i < |Split(s)| ==> ',' !in Split(s)[i]
  {
    if s != "" {
      SplitIs(s[1..]);
      var rest := Split(s[1..]);
      assert s == [s[0]] + s[1..];
      if s[0] == ',' {
        assert Split(s)[1..] == rest;
      } else {
        assert Split(s)[1..] == rest[1..] && Split(s)[0] == [s[0]] + rest[0];
      }
    }
  }

  // ---- what a row comes to ----------------------------------------------------------------------

  /** Cells by target field; where several headers map to one field, the last cell wins. */
  function Mapped(values: seq<(string, string)>, mapping: map<string, string>): map<string, string> {
    if values == [] then map[]
    else
      var rest := Mapped(values[..|values| - 1], mapping);
      var (header, value) := values[|values| - 1];
      if header in mapping && mapping[header] != "" then rest[mapping[header] := value] else rest
  }

  /** The last cell of a field decides what it is mapped to. */
  lemma {:induction false} LastCellWins(values: seq<(string, string)>, mapping: map<string, string>, k: nat, field: string)
    requires k < |values| && field != "" && values[k].0 in mapping && mapping[values[k].0] == field
    requires forall l :: k < l < |values| && values[l].0 in mapping ==> mapping[values[l].0] != field
    ensures field in Mapped(values, mapping) && Mapped(values, mapping)[field] == values[k].1
  {
    if k < |values| - 1 {
      LastCellWins(values[..|values| - 1], mapping, k, field);
    }
  }

  /** And nothing is mapped but by some cell of its own. */
  lemma {:induction false} OnlyCellsAreMapped(values: seq<(string, string)>, mapping: map<string, string>, field: string) returns (k: nat)
    requires field in Mapped(values, mapping)
    ensures k < |values| && values[k].0 in mapping && mapping[values[k].0] == field && field != ""
    ensures Mapped(values, mapping)[field] == values[k].1
  {
    k := |values| - 1;
    var (header, value) := values[k];
    if !(header in mapping && mapping[header] == field && field != "") {
      k := OnlyCellsAreMapped(values[..|values| - 1], mapping, field);
    }
  }

  method ReadRow(values: seq<(string, string)>, mapping: map<string, string>) returns (mapped: map<string, string>)
    ensures mapped == Mapped(values, mapping)
  {
    mapped := map[];
    for i := 0 to |values|
      invariant mapped == Mapped(values[..i], mapping)
    {
      assert values[..i + 1][..i] == values[..i];
      var (header, value) := values[i];
      if header in mapping && mapping[header] != "" {
        mapped := mapped[mapping[header] := value];
      }
    }
    assert values[..|values|] == values;
  }

  function Cell(mapped: map<string, string>, field: string): (r: string)
    ensures field in mapped ==> r == mapped[field]
    ensures field !in mapped ==> r == ""
  {
    if field in mapped then mapped[field] else ""
  }

  /** A title, or else the subtask. */
  function Title(mapped: map<string, string>): (r: string)
    ensures "title" in mapped && mapped["title"] != "" ==> r == Strip(mapped["title"])
    ensures ("title" in mapped ==> mapped["title"] == "") && "subtask" in mapped ==> r == Strip(mapped["subtask"])
    ensures ("title" in mapped ==> mapped["title"] == "") && "subtask" !in mapped ==> r == ""
  {
    Strip(if Cell(mapped, "title") != "" then Cell(mapped, "title") else Cell(mapped, "subtask"))
  }

  /** An Application in scope, or else a Work Stream. */
  function ContextOf(mapped: map<string, string>, lookups: Lookups): (r: Option<Context>)
    ensures var application, stream := Strip(Cell(mapped, "application")), Strip(Cell(mapped, "work_stream"));
            var resolved := application != "" && application in lookups.applications;
            && (resolved ==> r == Some(InApplication(lookups.applications[application])))
            && (!resolved && stream != "" ==> r == Some(InWorkStream(stream)))
            && (!resolved && stream == "" ==> r == None)
  {
    var application := Strip(Cell(mapped, "application"));
    var stream := Strip(Cell(mapped, "work_stream"));
    if application != "" && application in lookups.applications then Some(InApplication(lookups.applications[application]))
    else if stream != "" then Some(InWorkStream(stream))
    else None
  }

  /** The draft Task a row makes, or the reason why it makes none. */
  function Verdict(mapped: map<string, string>, lookups: Lookups): (r: Outcome<Draft, Reason>)
    ensures r.Ok? <==> Title(mapped) != "" && Strip(Cell(mapped, "owning_team")) != ""
                       && Strip(Cell(mapped, "owning_team")) in lookups.teams && ContextOf(mapped, lookups).Some?
    ensures r == Failed(MissingTitle) <==> Title(mapped) == ""
    ensures r == Failed(NoContext) <==> Title(mapped) != "" && Strip(Cell(mapped, "owning_team")) in lookups.teams
                                        && Strip(Cell(mapped, "owning_team")) != "" && ContextOf(mapped, lookups) == None
    ensures r.Failed? ==> r.error == MissingTitle || r.error == NoTeam || r.error == NoContext
    ensures r.Ok? ==>
              && r.value.title == Title(mapped) && r.value.team == lookups.teams[Strip(Cell(mapped, "owning_team"))]
              && Some(r.value.context) == ContextOf(mapped, lookups) && r.value.predecessors == Cell(mapped, "predecessor")
              && (r.value.assigneeUnknown <==> Strip(Cell(mapped, "assignee")) !in lookups.users && Strip(Cell(mapped, "assignee")) != "")
              && (r.value.assignee.Some? ==>
                    Strip(Cell(mapped, "assignee")) in lookups.users && r.value.assignee.value == lookups.users[Strip(Cell(mapped, "assignee"))])
              && (r.value.assignee == None ==> r.value.assigneeUnknown || Strip(Cell(mapped, "assignee")) == "")
  {
    var team := Strip(Cell(mapped, "owning_team"));
    var assignee := Strip(Cell(mapped, "assignee"));
    if Title(mapped) == "" then Failed(MissingTitle)
    else if team == "" || team !in lookups.teams then Failed(NoTeam)
    else if ContextOf(mapped, lookups) == None then Failed(NoContext)
    else Ok(Draft(Title(mapped), lookups.teams[team], ContextOf(mapped, lookups).value,
                  if assignee != "" && assignee in lookups.users then Some(lookups.users[assignee]) else None,
                  assignee != "" && assignee !in lookups.users, Cell(mapped, "predecessor")))
  }

  type Verdicts = seq<Outcome<Draft, Reason>>

  /** The verdicts of all rows, in order. */
  ghost function RowVerdicts(inp: Input): (v: Verdicts)
    ensures |v| == |inp.rows|
    ensures forall i :: 0 <= i < |v| ==> v[i] == Verdict(Mapped(inp.rows[i].values, inp.mapping), inp.lookups)
  {
    seq(|inp.rows|, i requires 0 <= i < |inp.rows| => Verdict(Mapped(inp.rows[i].values, inp.mapping), inp.lookups))
  }

  // ---- the first pass ---------------------------------------------------------------------------

  /** The Task made from each row, the Tasks, and the last Task by lower-cased title. */
  datatype Made = Made(nodes: seq<Option<Node>>, tasks: map<Node, Draft>, titles: map<string, Node>)

  ghost function Oks(v: Verdicts): nat {
    if v == [] then 0 else Oks(v[..|v| - 1]) + if v[|v| - 1].Ok? then 1 else 0
  }

  lemma OksOneMore(v: Verdicts, next: Outcome<Draft, Reason>)
    ensures Oks(v + [next]) == Oks(v) + if next.Ok? then 1 else 0
  {
    assert (v + [next])[..|v|] == v;
  }

  ghost predicate TaskFor(v: Verdicts, made: Made, i: nat)
    requires |made.nodes| == |v| && i < |v|
  {
    if v[i].Ok? then made.nodes[i].Some? && made.nodes[i].value in made.tasks && made.tasks[made.nodes[i].value] == v[i].value
    else made.nodes[i] == None
  }

  ghost predicate HasTitle(v: Verdicts, i: nat, l: string)
    requires i < |v|
  {
    v[i].Ok? && Lower(v[i].value.title) == l
  }

  /** Row i is the last one with this title. */
  ghost predicate LastTitled(v: Verdicts, l: string, i: nat) {
    i < |v| && HasTitle(v, i, l) && forall j :: i < j < |v| ==> !HasTitle(v, j, l)
  }

  ghost predicate TitleOk(v: Verdicts, made: Made, l: string)
    requires |made.nodes| == |v|
  {
    && (l in made.titles ==> exists i: nat :: LastTitled(v, l, i) && made.nodes[i] == Some(made.titles[l]))
    && (l !in made.titles ==> forall i :: 0 <= i < |v| ==> !HasTitle(v, i, l))
  }

  ghost predicate TasksOk(v: Verdicts, made: Made)
    requires |made.nodes| == |v|
  {
    forall i :: 0 <= i < |v| ==> TaskFor(v, made, i)
  }

  ghost predicate TitlesOk(v: Verdicts, made: Made)
    requires |made.nodes| == |v|
  {
    forall l :: TitleOk(v, made, l)
  }

  /** Different rows make different Tasks, all of them new, and there are no other Tasks. */
  ghost predicate NodesOk(nodes: seq<Option<Node>>, tasks: map<Node, Draft>, base: Node) {
    && (forall i, j :: 0 <= i < j < |nodes| && nodes[i].Some? ==> nodes[i] != nodes[j])
    && (forall t :: t in tasks ==> Some(t) in nodes && base <= t < base + |tasks|)
    && (forall i :: 0 <= i < |nodes| && nodes[i].Some? ==> nodes[i].value in tasks)
  }

  ghost predicate MadeOk(v: Verdicts, made: Made, base: Node) {
    && |made.nodes| == |v|
    && TasksOk(v, made) && NodesOk(made.nodes, made.tasks, base) && |made.tasks| == Oks(v)
    && TitlesOk(v, made)
  }

  lemma OneMoreRefused(nodes: seq<Option<Node>>, tasks: map<Node, Draft>, base: Node)
    requires NodesOk(nodes, tasks, base)
    ensures NodesOk(nodes + [None], tasks, base)
  {
    forall t | t in tasks
      ensures Some(t) in nodes + [None]
    {
      assert Some(t) in nodes;
    }
  }

  function Add(made: Made, d: Draft, node: Node): Made {
    Made(made.nodes + [Some(node)], made.tasks[node := d], made.titles[Lower(d.title) := node])
  }

  function Skip(made: Made): Made {
    made.(nodes := made.nodes + [None])
  }

  /** What the next row makes of it. */
  function NextMade(made: Made, next: Outcome<Draft, Reason>, base: Node): Made {
    if next.Ok? then Add(made, next.value, base + |made.tasks|) else Skip(made)
  }

  lemma TitlesStay(v: Verdicts, made: Made, made': Made, next: Outcome<Draft, Reason>, l: string)
    requires |made.nodes| == |v| && |made'.nodes| == |v| + 1 && made'.nodes[..|v|] == made.nodes && TitleOk(v, made, l)
    requires if next.Ok? && Lower(next.value.title) == l then l in made'.titles && made'.nodes[|v|] == Some(made'.titles[l])
             else (l in made'.titles <==> l in made.titles) && (l in made.titles ==> made'.titles[l] == made.titles[l])
    ensures TitleOk(v + [next], made', l)
  {
    var w := v + [next];
    assert forall i: nat :: i < |v| ==> (HasTitle(w, i, l) <==> HasTitle(v, i, l));
    if next.Ok? && Lower(next.value.title) == l {
      assert LastTitled(w, l, |v|);
    } else if l in made.titles {
      var i: nat :| LastTitled(v, l, i) && made.nodes[i] == Some(made.titles[l]);
      assert LastTitled(w, l, i) && made'.nodes[i] == made.nodes[i];
    }
  }

  lemma TasksStay(v: Verdicts, made: Made, made': Made, next: Outcome<Draft, Reason>, i: nat)
    requires |made.nodes| == |v| && |made'.nodes| == |v| + 1 && made'.nodes[..|v|] == made.nodes && i < |v|
    requires TaskFor(v, made, i) && forall t :: t in made.tasks ==> t in made'.tasks && made'.tasks[t] == made.tasks[t]
    ensures TaskFor(v + [next], made', i)
  {
    assert made'.nodes[i] == made.nodes[i];
  }

  lemma AddKeepsTasks(v: Verdicts, made: Made, base: Node, next: Outcome<Draft, Reason>)
    requires |made.nodes| == |v| && TasksOk(v, made) && next.Ok? && base + |made.tasks| !in made.tasks
    ensures TasksOk(v + [next], NextMade(made, next, base))
  {
    var made', w := NextMade(made, next, base), v + [next];
    forall i | 0 <= i < |v|
      ensures TaskFor(w, made', i)
    {
      TasksStay(v, made, made', next, i);
    }
  }

  lemma AddKeepsTitles(v: Verdicts, made: Made, base: Node, next: Outcome<Draft, Reason>)
    requires |made.nodes| == |v| && TitlesOk(v, made) && next.Ok?
    ensures TitlesOk(v + [next], NextMade(made, next, base))
  {
    var made' := NextMade(made, next, base);
    forall l
      ensures TitleOk(v + [next], made', l)
    {
      TitlesStay(v, made, made', next, l);
    }
  }

  lemma AddKeepsNodes(made: Made, base: Node, next: Outcome<Draft, Reason>)
    requires NodesOk(made.nodes, made.tasks, base) && next.Ok?
    ensures var after := NextMade(made, next, base);
            base + |made.tasks| !in made.tasks && NodesOk(after.nodes, after.tasks, base)
  {
    var after := NextMade(made, next, base);
    assert after.nodes[|made.nodes|] == Some(base + |made.tasks|);
    OneLarger(made.tasks, base + |made.tasks|, next.value);
    forall t | t in made.tasks
      ensures Some(t) in after.nodes
    {
      assert Some(t) in made.nodes;
    }
  }

  lemma AddCounts(v: Verdicts, made: Made, base: Node, next: Outcome<Draft, Reason>)
    requires |made.tasks| == Oks(v) && next.Ok? && base + |made.tasks| !in made.tasks
    ensures |NextMade(made, next, base).tasks| == Oks(v + [next])
  {
    OksOneMore(v, next);
    OneLarger(made.tasks, base + |made.tasks|, next.value);
  }

  lemma AddKeepsMade(v: Verdicts, made: Made, base: Node, next: Outcome<Draft, Reason>)
    requires MadeOk(v, made, base) && next.Ok?
    ensures MadeOk(v + [next], NextMade(made, next, base), base)
  {
    AddKeepsNodes(made, base, next);
    AddCounts(v, made, base, next);
    AddKeepsTasks(v, made, base, next);
    AddKeepsTitles(v, made, base, next);
  }

  lemma OneLarger(tasks: map<Node, Draft>, node: Node, d: Draft)
    requires node !in tasks
    ensures |tasks[node := d]| == |tasks| + 1
  {
  }

  lemma SkipKeepsMade(v: Verdicts, made: Made, base: Node, next: Outcome<Draft, Reason>)
    requires MadeOk(v, made, base) && next.Failed?
    ensures MadeOk(v + [next], NextMade(made, next, base), base)
  {
    var made', w := Skip(made), v + [next];
    OksOneMore(v, next);
    forall i | 0 <= i < |v|
      ensures TaskFor(w, made', i)
    {
      TasksStay(v, made, made', next, i);
    }
    forall l
      ensures TitleOk(w, made', l)
    {
      TitlesStay(v, made, made', next, l);
    }
    OneMoreRefused(made.nodes, made.tasks, base);
  }

  // ---- the first pass's review items ------------------------------------------------------------

  ghost predicate Listed(items: seq<Item>, about: About) {
    exists k :: 0 <= k < |items| && items[k].about == about
  }

  ghost predicate OncePerSubject(items: seq<Item>) {
    forall k, l :: 0 <= k < l < |items| ==> items[k].about != items[l].about
  }

  /** An item for a refused row, or for an unresolved assignee. */
  ghost predicate RowItem(v: Verdicts, nodes: seq<Option<Node>>, item: Item)
    requires |nodes| == |v|
  {
    match item.about
    case RowRefused(i) => i < |v| && v[i] == Failed(item.reason) && item.target == ToJob
    case RowAssignee(i) => i < |v| && v[i].Ok? && v[i].value.assigneeUnknown && nodes[i].Some?
                           && item.target == ToTask(nodes[i].value) && item.reason == UnknownAssignee
    case Piece(i, j) => false
  }

  /** The row has the items it should have. */
  ghost predicate RowListed(v: Verdicts, items: seq<Item>, i: nat)
    requires i < |v|
  {
    && (v[i].Failed? ==> Listed(items, RowRefused(i)))
    && (v[i].Ok? && v[i].value.assigneeUnknown ==> Listed(items, RowAssignee(i)))
  }

  ghost predicate RowItemsOk(v: Verdicts, nodes: seq<Option<Node>>, items: seq<Item>) {
    && |nodes| == |v| && OncePerSubject(items)
    && (forall k :: 0 <= k < |items| ==> RowItem(v, nodes, items[k]))
    && (forall i :: 0 <= i < |v| ==> RowListed(v, items, i))
  }

  lemma ListedStill(items: seq<Item>, more: seq<Item>, about: About)
    ensures Listed(items, about) ==> Listed(items + more, about)
    ensures |more| == 1 && more[0].about == about ==> Listed(items + more, about)
  {
    if k :| 0 <= k < |items| && items[k].about == about {
      assert (items + more)[k].about == about;
    }
    if |more| == 1 {
      assert (items + more)[|items|] == more[0];
    }
  }

  /** What the next row adds to the items. */
  function NextItems(n: nat, next: Outcome<Draft, Reason>, node: Node): seq<Item> {
    match next
    case Failed(reason) => [Item(RowRefused(n), ToJob, reason)]
    case Ok(d) => if d.assigneeUnknown then [Item(RowAssignee(n), ToTask(node), UnknownAssignee)] else []
  }

  lemma NextRowListed(v: Verdicts, nodes: seq<Option<Node>>, items: seq<Item>, next: Outcome<Draft, Reason>, node: Node, i: nat)
    requires RowItemsOk(v, nodes, items) && i <= |v|
    ensures RowListed(v + [next], items + NextItems(|v|, next, node), i)
  {
    var more := NextItems(|v|, next, node);
    if i < |v| {
      assert RowListed(v, items, i);
    }
    ListedStill(items, more, RowRefused(i));
    ListedStill(items, more, RowAssignee(i));
  }

  lemma NextRowItems(v: Verdicts, nodes: seq<Option<Node>>, items: seq<Item>, next: Outcome<Draft, Reason>, node: Node)
    requires RowItemsOk(v, nodes, items)
    ensures RowItemsOk(v + [next], nodes + [if next.Ok? then Some(node) else None], items + NextItems(|v|, next, node))
  {
    var w, nodes', items' := v + [next], nodes + [if next.Ok? then Some(node) else None], items + NextItems(|v|, next, node);
    forall k | 0 <= k < |items'|
      ensures RowItem(w, nodes', items'[k]) && (k < |items| ==> items'[k].about.row < |v|)
    {
      if k < |items| {
        assert RowItem(v, nodes, items[k]) && items'[k] == items[k];
      }
    }
    forall i | 0 <= i < |w|
      ensures RowListed(w, items', i)
    {
      NextRowListed(v, nodes, items, next, node, i);
    }
  }

  // ---- the loop over the rows -------------------------------------------------------------------

  ghost predicate HasPieces(v: Verdicts, i: nat) {
    i < |v| && v[i].Ok? && v[i].value.predecessors != ""
  }

  lemma NextKeepsMade(v: Verdicts, made: Made, base: Node, next: Outcome<Draft, Reason>)
    requires MadeOk(v, made, base)
    ensures MadeOk(v + [next], NextMade(made, next, base), base)
  {
    if next.Ok? {
      AddKeepsMade(v, made, base, next);
    } else {
      SkipKeepsMade(v, made, base, next);
    }
  }

  lemma NextKeepsItems(v: Verdicts, n: nat, made: Made, base: Node, next: Outcome<Draft, Reason>, items: seq<Item>)
    requires RowItemsOk(v, made.nodes, items) && n == |v|
    ensures RowItemsOk(v + [next], NextMade(made, next, base).nodes, items + NextItems(n, next, base + |made.tasks|))
  {
    var node := base + |made.tasks|;
    NextRowItems(v, made.nodes, items, next, node);
    assert NextMade(made, next, base).nodes == made.nodes + [if next.Ok? then Some(node) else None];
  }

  lemma NextRow(v: Verdicts, n: nat, made: Made, base: Node, next: Outcome<Draft, Reason>, items: seq<Item>, pending: seq<nat>)
    requires FirstPass(v, made, base, items, pending) && n == |v|
    ensures FirstPass(v + [next], NextMade(made, next, base), base, items + NextItems(n, next, base + |made.tasks|),
                      NextPending(pending, next, n))
  {
    NextKeepsMade(v, made, base, next);
    NextKeepsItems(v, n, made, base, next, items);
    PendingGrows(v, next, pending);
  }

  /** What holds after the first rows. */
  ghost predicate FirstPass(v: Verdicts, made: Made, base: Node, items: seq<Item>, pending: seq<nat>) {
    && MadeOk(v, made, base) && RowItemsOk(v, made.nodes, items)
    && PendingOk(v, pending)
  }

  lemma NothingRead(base: Node)
    ensures FirstPass([], Made([], map[], map[]), base, [], [])
  {
  }

  function NextPending(pending: seq<nat>, next: Outcome<Draft, Reason>, n: nat): seq<nat> {
    if next.Ok? && next.value.predecessors != "" then pending + [n] else pending
  }

  ghost predicate PendingOk(v: Verdicts, pending: seq<nat>) {
    && (forall i :: i in pending <==> HasPieces(v, i))
    && forall k, l :: 0 <= k < l < |pending| ==> pending[k] != pending[l]
  }

  lemma PendingGrows(v: Verdicts, next: Outcome<Draft, Reason>, pending: seq<nat>)
    requires PendingOk(v, pending)
    ensures PendingOk(v + [next], NextPending(pending, next, |v|))
  {
    assert |v| !in pending;
  }

  lemma VerdictsTo(inp: Input, n: nat, next: Outcome<Draft, Reason>)
    requires n < |inp.rows| && next == Verdict(Mapped(inp.rows[n].values, inp.mapping), inp.lookups)
    ensures RowVerdicts(inp)[..n + 1] == RowVerdicts(inp)[..n] + [next]
  {
  }

  method CreateTasks(inp: Input, base: Node) returns (made: Made, pending: seq<nat>, items: seq<Item>)
    ensures FirstPass(RowVerdicts(inp), made, base, items, pending)
  {
    made, pending, items := Made([], map[], map[]), [], [];
    NothingRead(base);
    ghost var all := RowVerdicts(inp);
    for n := 0 to |inp.rows|
      invariant FirstPass(all[..n], made, base, items, pending)
    {
      var mapped := ReadRow(inp.rows[n].values, inp.mapping);
      var next := Verdict(mapped, inp.lookups);
      NextRow(all[..n], n, made, base, next, items, pending);
      VerdictsTo(inp, n, next);
      items := items + NextItems(n, next, base + |made.tasks|);
      made := NextMade(made, next, base);
      pending := NextPending(pending, next, n);
    }
    assert all[..|inp.rows|] == all;
  }

  // ---- the second pass --------------------------------------------------------------------------

  /** A predecessor cell is a comma-separated list; blank pieces ask for nothing. */
  ghost predicate Asked(v: Verdicts, i: nat, j: nat) {
    i < |v| && v[i].Ok? && j < |Split(v[i].value.predecessors)| && PieceName(v, i, j) != ""
  }

  ghost function PieceName(v: Verdicts, i: nat, j: nat): string
    requires i < |v| && v[i].Ok? && j < |Split(v[i].value.predecessors)|
  {
    Strip(Split(v[i].value.predecessors)[j])
  }

  ghost predicate Known(v: Verdicts, made: Made, i: nat, j: nat) {
    Asked(v, i, j) && Lower(PieceName(v, i, j)) in made.titles
  }

  /** The edge that a piece asks for. */
  ghost function Wanted(v: Verdicts, made: Made, i: nat, j: nat): Edge
    requires Known(v, made, i, j) && |made.nodes| == |v| && made.nodes[i].Some?
  {
    Edge(made.titles[Lower(PieceName(v, i, j))], made.nodes[i].value)
  }

  /** The dependency rows, and the second pass's items and count of new edges. */
  datatype Links = Links(rows: map<Id, Row>, nextRow: Id, items: seq<Item>, linked: nat)

  /** A piece ends as an item or as an edge; an item about a known predecessor names a path back. */
  ghost predicate PieceOk(v: Verdicts, made: Made, event: Id, links: Links, i: nat, j: nat)
    requires |made.nodes| == |v| && Asked(v, i, j) && made.nodes[i].Some?
  {
    var es := Edges(links.rows, event);
    if Known(v, made, i, j) then
      && (Listed(links.items, Piece(i, j)) || Wanted(v, made, i, j) in es)
      && (Listed(links.items, Piece(i, j)) ==> Reaches(es, Wanted(v, made, i, j).dst, Wanted(v, made, i, j).src))
    else Listed(links.items, Piece(i, j))
  }

  ghost predicate PieceItem(v: Verdicts, made: Made, item: Item)
    requires |made.nodes| == |v|
  {
    && item.about.Piece? && Asked(v, item.about.row, item.about.piece)
    && made.nodes[item.about.row].Some? && item.target == ToTask(made.nodes[item.about.row].value)
    && var name := PieceName(v, item.about.row, item.about.piece);
       item.reason == if Known(v, made, item.about.row, item.about.piece) then WouldCycle(name) else UnknownPredecessor(name)
  }

  /** A new row is a hard Task edge that some piece asked for. */
  ghost predicate NewEdge(v: Verdicts, made: Made, event: Id, row: Row)
    requires |made.nodes| == |v|
  {
    && row.event == event && !row.deleted && row.link.TaskEdge? && row.link.strength == Hard
    && exists i: nat, j: nat :: Known(v, made, i, j) && made.nodes[i].Some? && Ends(row.link) == Wanted(v, made, i, j)
  }

  ghost predicate RowsOk(v: Verdicts, made: Made, event: Id, rows0: map<Id, Row>, links: Links)
    requires |made.nodes| == |v|
  {
    && AllAcyclic(links.rows) && |links.rows| == |rows0| + links.linked
    && (forall id :: id in links.rows ==> id < links.nextRow)
    && (forall id :: id in rows0 ==> id in links.rows && links.rows[id] == rows0[id])
    && (forall id :: id in links.rows && id !in rows0 ==> NewEdge(v, made, event, links.rows[id]))
  }

  ghost predicate PieceItemsOk(v: Verdicts, made: Made, links: Links, done: set<(nat, nat)>)
    requires |made.nodes| == |v|
  {
    && OncePerSubject(links.items)
    && (forall k :: 0 <= k < |links.items| ==>
          PieceItem(v, made, links.items[k]) && (links.items[k].about.row, links.items[k].about.piece) in done)
  }

  ghost predicate DoneOk(v: Verdicts, made: Made, event: Id, links: Links, done: set<(nat, nat)>)
    requires |made.nodes| == |v|
  {
    forall i: nat, j: nat :: (i, j) in done && Asked(v, i, j) && made.nodes[i].Some? ==> PieceOk(v, made, event, links, i, j)
  }

  ghost predicate SecondPass(v: Verdicts, made: Made, event: Id, rows0: map<Id, Row>, links: Links, done: set<(nat, nat)>) {
    && |made.nodes| == |v|
    && RowsOk(v, made, event, rows0, links) && PieceItemsOk(v, made, links, done) && DoneOk(v, made, event, links, done)
  }

  function Flag(links: Links, item: Item): Links {
    links.(items := links.items + [item])
  }

  lemma DoneStays(v: Verdicts, made: Made, event: Id, links: Links, links': Links, done: set<(nat, nat)>)
    requires |made.nodes| == |v| && DoneOk(v, made, event, links, done)
    requires Edges(links.rows, event) <= Edges(links'.rows, event)
    requires links'.items == links.items || exists item :: links'.items == links.items + [item]
                                                         && item.about.Piece? && (item.about.row, item.about.piece) !in done
    ensures DoneOk(v, made, event, links', done)
  {
    forall i: nat, j: nat | (i, j) in done && Asked(v, i, j) && made.nodes[i].Some?
      ensures PieceOk(v, made, event, links', i, j)
    {
      assert PieceOk(v, made, event, links, i, j);
      ListedSame(links.items, links'.items, done, i, j);
      if Known(v, made, i, j) {
        ReachesMono(Edges(links.rows, event), Edges(links'.rows, event), Wanted(v, made, i, j).dst, Wanted(v, made, i, j).src);
      }
    }
  }

  lemma ListedSame(items: seq<Item>, items': seq<Item>, done: set<(nat, nat)>, i: nat, j: nat)
    requires (i, j) in done
    requires items' == items || exists item :: items' == items + [item]
                                               && item.about.Piece? && (item.about.row, item.about.piece) !in done
    ensures Listed(items', Piece(i, j)) <==> Listed(items, Piece(i, j))
  {
    if Listed(items, Piece(i, j)) {
      ListedStill(items, items'[|items|..], Piece(i, j));
      assert items' == items + items'[|items|..];
    }
    if k :| 0 <= k < |items'| && items'[k].about == Piece(i, j) {
      assert k < |items| ==> items[k].about == Piece(i, j);
    }
  }

  /** Flagging one piece: the predecessor is unknown, or leads back from the successor. */
  lemma FlagOne(v: Verdicts, made: Made, event: Id, rows0: map<Id, Row>, links: Links, done: set<(nat, nat)>, i: nat, j: nat, item: Item)
    requires SecondPass(v, made, event, rows0, links, done) && (i, j) !in done
    requires PieceItem(v, made, item) && item.about == Piece(i, j)
    requires Known(v, made, i, j) ==>
               Reaches(Edges(links.rows, event), Wanted(v, made, i, j).dst, Wanted(v, made, i, j).src)
    ensures SecondPass(v, made, event, rows0, Flag(links, item), done + {(i, j)})
  {
    var links' := Flag(links, item);
    DoneStays(v, made, event, links, links', done);
    ListedStill(links.items, [item], Piece(i, j));
    assert PieceOk(v, made, event, links', i, j);
    forall k | 0 <= k < |links.items|
      ensures links.items[k].about != item.about
    {
    }
  }

  lemma NothingAsked(v: Verdicts, made: Made, event: Id, rows0: map<Id, Row>, links: Links, done: set<(nat, nat)>, i: nat, j: nat)
    requires SecondPass(v, made, event, rows0, links, done) && !Asked(v, i, j)
    ensures SecondPass(v, made, event, rows0, links, done + {(i, j)})
  {
  }

  lemma AlreadyLinked(v: Verdicts, made: Made, event: Id, rows0: map<Id, Row>, links: Links, done: set<(nat, nat)>, i: nat, j: nat)
    requires SecondPass(v, made, event, rows0, links, done) && (i, j) !in done
    requires Known(v, made, i, j) && made.nodes[i].Some? && Wanted(v, made, i, j) in Edges(links.rows, event)
    ensures SecondPass(v, made, event, rows0, links, done + {(i, j)})
  {
    assert !Listed(links.items, Piece(i, j));
    assert PieceOk(v, made, event, links, i, j);
  }

  function Linked(links: Links, event: Id, e: Edge): Links {
    links.(rows := links.rows[links.nextRow := Row(event, TaskEdge(e.src, e.dst, Hard), false)],
           nextRow := links.nextRow + 1, linked := links.linked + 1)
  }

  lemma WantedIsNew(v: Verdicts, made: Made, event: Id, i: nat, j: nat)
    requires |made.nodes| == |v| && Known(v, made, i, j) && made.nodes[i].Some?
    ensures var e := Wanted(v, made, i, j); NewEdge(v, made, event, Row(event, TaskEdge(e.src, e.dst, Hard), false))
  {
    assert Ends(TaskEdge(Wanted(v, made, i, j).src, Wanted(v, made, i, j).dst, Hard)) == Wanted(v, made, i, j);
  }

  lemma LinkGrows(v: Verdicts, made: Made, event: Id, rows0: map<Id, Row>, links: Links, e: Edge)
    requires |made.nodes| == |v| && RowsOk(v, made, event, rows0, links)
    requires NewEdge(v, made, event, Row(event, TaskEdge(e.src, e.dst, Hard), false))
    ensures links.nextRow !in links.rows
    ensures var after := Linked(links, event, e);
            && |after.rows| == |rows0| + after.linked
            && (forall id :: id in after.rows ==> id < after.nextRow)
            && (forall id :: id in rows0 ==> id in after.rows && after.rows[id] == rows0[id])
            && (forall id :: id in after.rows && id !in rows0 ==> NewEdge(v, made, event, after.rows[id]))
  {
    assert links.nextRow !in links.rows;
  }

  lemma LinkKeepsGraph(links: Links, event: Id, e: Edge)
    requires AllAcyclic(links.rows) && links.nextRow !in links.rows && !Reaches(Edges(links.rows, event), e.dst, e.src)
    ensures AllAcyclic(Linked(links, event, e).rows)
    ensures Edges(Linked(links, event, e).rows, event) == Edges(links.rows, event) + {e}
  {
    var row := Row(event, TaskEdge(e.src, e.dst, Hard), false);
    InsertedEdges(links.rows, links.nextRow, row, event);
    CheckedInsertKeepsAcyclic(links.rows, links.nextRow, event, row.link);
  }

  lemma LinkKeepsRows(v: Verdicts, made: Made, event: Id, rows0: map<Id, Row>, links: Links, i: nat, j: nat)
    requires |made.nodes| == |v| && RowsOk(v, made, event, rows0, links) && Known(v, made, i, j) && made.nodes[i].Some?
    requires !Reaches(Edges(links.rows, event), Wanted(v, made, i, j).dst, Wanted(v, made, i, j).src)
    ensures RowsOk(v, made, event, rows0, Linked(links, event, Wanted(v, made, i, j)))
    ensures Edges(Linked(links, event, Wanted(v, made, i, j)).rows, event) == Edges(links.rows, event) + {Wanted(v, made, i, j)}
  {
    var e := Wanted(v, made, i, j);
    WantedIsNew(v, made, event, i, j);
    LinkGrows(v, made, event, rows0, links, e);
    LinkKeepsGraph(links, event, e);
  }

  lemma LinkOneMore(v: Verdicts, made: Made, event: Id, rows0: map<Id, Row>, links: Links, done: set<(nat, nat)>, i: nat, j: nat)
    requires SecondPass(v, made, event, rows0, links, done) && (i, j) !in done
    requires Known(v, made, i, j) && made.nodes[i].Some?
    requires !Reaches(Edges(links.rows, event), Wanted(v, made, i, j).dst, Wanted(v, made, i, j).src)
    ensures SecondPass(v, made, event, rows0, Linked(links, event, Wanted(v, made, i, j)), done + {(i, j)})
  {
    var links' := Linked(links, event, Wanted(v, made, i, j));
    LinkKeepsRows(v, made, event, rows0, links, i, j);
    DoneStays(v, made, event, links, links', done);
    assert !Listed(links'.items, Piece(i, j));
    assert PieceOk(v, made, event, links', i, j);
  }

  /** Any live Task edge between the two, as `create_draft_dependency` looks for it. */
  method TaskEdgeExists(rows: map<Id, Row>, e: Edge) returns (found: bool)
    ensures found <==> exists id :: id in rows && !rows[id].deleted && rows[id].link.TaskEdge? && Ends(rows[id].link) == e
  {
    found := exists id <- rows :: !rows[id].deleted && rows[id].link.TaskEdge? && Ends(rows[id].link) == e;
  }

  /** The Tasks of this accept are new: no row from before ends in one of them. */
  ghost predicate NoRowInto(rows0: map<Id, Row>, made: Made) {
    forall id :: id in rows0 ==> Ends(rows0[id].link).dst !in made.tasks
  }

  lemma ExistingIsLinked(v: Verdicts, made: Made, event: Id, rows0: map<Id, Row>, links: Links, id: Id, t: Node)
    requires |made.nodes| == |v| && RowsOk(v, made, event, rows0, links) && NoRowInto(rows0, made)
    requires id in links.rows && !links.rows[id].deleted && links.rows[id].link.TaskEdge? && Ends(links.rows[id].link).dst == t
    requires t in made.tasks
    ensures Ends(links.rows[id].link) in Edges(links.rows, event)
  {
    assert id !in rows0;
    assert NewEdge(v, made, event, links.rows[id]);
    assert Live(links.rows, event, id);
  }

  method LinkPiece(ghost v: Verdicts, made: Made, event: Id, ghost rows0: map<Id, Row>, links: Links, ghost done: set<(nat, nat)>,
                   i: nat, j: nat, piece: string, successor: Node)
    returns (after: Links)
    requires SecondPass(v, made, event, rows0, links, done) && (i, j) !in done && NoRowInto(rows0, made)
    requires i < |v| && v[i].Ok? && j < |Split(v[i].value.predecessors)| && piece == Split(v[i].value.predecessors)[j]
    requires made.nodes[i] == Some(successor) && successor in made.tasks
    ensures SecondPass(v, made, event, rows0, after, done + {(i, j)})
  {
    var name := Strip(piece);
    if name == "" {
      NothingAsked(v, made, event, rows0, links, done, i, j);
      return links;
    }
    if Lower(name) !in made.titles {
      var item := Item(Piece(i, j), ToTask(successor), UnknownPredecessor(name));
      FlagOne(v, made, event, rows0, links, done, i, j, item);
      return Flag(links, item);
    }
    var predecessor := made.titles[Lower(name)];
    var cycle := FindCyclePath(links.rows, event, predecessor, successor);
    if cycle.Some? {
      var item := Item(Piece(i, j), ToTask(successor), WouldCycle(name));
      FlagOne(v, made, event, rows0, links, done, i, j, item);
      return Flag(links, item);
    }
    var found := TaskEdgeExists(links.rows, Edge(predecessor, successor));
    if found {
      var id :| id in links.rows && !links.rows[id].deleted && links.rows[id].link.TaskEdge?
                && Ends(links.rows[id].link) == Edge(predecessor, successor);
      ExistingIsLinked(v, made, event, rows0, links, id, successor);
      AlreadyLinked(v, made, event, rows0, links, done, i, j);
      return links;
    }
    LinkOneMore(v, made, event, rows0, links, done, i, j);
    after := Linked(links, event, Edge(predecessor, successor));
  }

  ghost function PiecesOf(i: nat, n: nat): set<(nat, nat)> {
    set j | 0 <= j < n :: (i, j)
  }

  lemma PiecesGrow(done: set<(nat, nat)>, i: nat, j: nat)
    requires (i, j) !in done
    ensures (i, j) !in done + PiecesOf(i, j) && done + PiecesOf(i, j) + {(i, j)} == done + PiecesOf(i, j + 1)
    ensures done + PiecesOf(i, 0) == done
  {
  }

  method LinkRow(ghost v: Verdicts, made: Made, event: Id, ghost rows0: map<Id, Row>, links: Links, ghost done: set<(nat, nat)>,
                 i: nat, raw: string, successor: Node)
    returns (after: Links)
    requires SecondPass(v, made, event, rows0, links, done) && NoRowInto(rows0, made) && forall j :: (i, j) !in done
    requires i < |v| && v[i].Ok? && raw == v[i].value.predecessors
    requires made.nodes[i] == Some(successor) && successor in made.tasks
    ensures SecondPass(v, made, event, rows0, after, done + PiecesOf(i, |Split(raw)|))
  {
    var pieces := Split(raw);
    after := links;
    PiecesGrow(done, i, 0);
    for j := 0 to |pieces|
      invariant SecondPass(v, made, event, rows0, after, done + PiecesOf(i, j))
    {
      PiecesGrow(done, i, j);
      after := LinkPiece(v, made, event, rows0, after, done + PiecesOf(i, j), i, j, pieces[j], successor);
    }
  }

  // ---- the whole accept -------------------------------------------------------------------------

  datatype Summary = Summary(created: nat, linked: nat, needsReview: nat)

  /** All that an accept leaves: Tasks, dependency rows, review items of both passes and the summary. */
  datatype Accept = Accept(made: Made, links: Links, rowItems: seq<Item>, summary: Summary)

  ghost predicate AllSettled(v: Verdicts, made: Made, event: Id, links: Links)
    requires |made.nodes| == |v|
  {
    forall i: nat, j: nat :: Asked(v, i, j) && made.nodes[i].Some? ==> PieceOk(v, made, event, links, i, j)
  }

  ghost predicate PieceItemsAre(v: Verdicts, made: Made, links: Links)
    requires |made.nodes| == |v|
  {
    OncePerSubject(links.items) && forall k :: 0 <= k < |links.items| ==> PieceItem(v, made, links.items[k])
  }

  /** The first pass is done: Tasks and row items are right, and so are the subjects of all items. */
  ghost predicate RowsDone(v: Verdicts, base: Node, a: Accept) {
    MadeOk(v, a.made, base) && RowItemsOk(v, a.made.nodes, a.rowItems) && PieceItemsAre(v, a.made, a.links)
  }

  /** The second pass is done: every piece is settled, and no Event's graph has a cycle. */
  ghost predicate PiecesDone(v: Verdicts, event: Id, a: Accept) {
    && |a.made.nodes| == |v| && TasksOk(v, a.made)
    && AllSettled(v, a.made, event, a.links) && AllAcyclic(a.links.rows)
  }

  ghost function Items(a: Accept): seq<Item> {
    a.rowItems + a.links.items
  }

  ghost function Covered(v: Verdicts, pending: seq<nat>, k: nat): set<(nat, nat)>
    requires k <= |pending| && forall i :: i in pending ==> HasPieces(v, i)
    decreases k
  {
    if k == 0 then {}
    else
      assert pending[k - 1] in pending;
      Covered(v, pending, k - 1) + PiecesOf(pending[k - 1], |Split(v[pending[k - 1]].value.predecessors)|)
  }

  lemma {:induction false} CoveredAre(v: Verdicts, pending: seq<nat>, k: nat, i: nat, j: nat)
    requires k <= |pending| && PendingOk(v, pending)
    ensures (i, j) in Covered(v, pending, k) <==>
              i in pending[..k] && i < |v| && v[i].Ok? && j < |Split(v[i].value.predecessors)|
    decreases k
  {
    if k > 0 {
      CoveredAre(v, pending, k - 1, i, j);
      assert pending[k - 1] in pending;
      assert pending[..k] == pending[..k - 1] + [pending[k - 1]];
    }
  }

  lemma NotYetCovered(v: Verdicts, pending: seq<nat>, k: nat)
    requires k < |pending| && PendingOk(v, pending)
    ensures forall j :: (pending[k], j) !in Covered(v, pending, k)
  {
    forall j
      ensures (pending[k], j) !in Covered(v, pending, k)
    {
      if j >= 0 {
        CoveredAre(v, pending, k, pending[k], j);
      }
    }
  }

  lemma AllCovered(v: Verdicts, made: Made, event: Id, rows0: map<Id, Row>, links: Links, pending: seq<nat>)
    requires PendingOk(v, pending) && SecondPass(v, made, event, rows0, links, Covered(v, pending, |pending|))
    ensures AllSettled(v, made, event, links) && PieceItemsAre(v, made, links)
  {
    forall i: nat, j: nat | Asked(v, i, j) && made.nodes[i].Some?
      ensures PieceOk(v, made, event, links, i, j)
    {
      assert HasPieces(v, i);
      assert pending[..|pending|] == pending;
      CoveredAre(v, pending, |pending|, i, j);
    }
  }

  lemma RowReady(v: Verdicts, made: Made, pending: seq<nat>, k: nat)
    requires |made.nodes| == |v| && TasksOk(v, made) && PendingOk(v, pending) && k < |pending|
    ensures var i := pending[k];
            && i < |v| && v[i].Ok? && made.nodes[i].Some? && made.nodes[i].value in made.tasks
            && made.tasks[made.nodes[i].value].predecessors == v[i].value.predecessors
            && forall j :: (i, j) !in Covered(v, pending, k)
  {
    assert pending[k] in pending && TaskFor(v, made, pending[k]);
    NotYetCovered(v, pending, k);
  }

  /** The second pass has been through the first k pending rows. */
  ghost predicate Reached(v: Verdicts, made: Made, event: Id, rows0: map<Id, Row>, links: Links, pending: seq<nat>, k: nat) {
    && k <= |pending| && PendingOk(v, pending) && |made.nodes| == |v| && TasksOk(v, made) && NoRowInto(rows0, made)
    && SecondPass(v, made, event, rows0, links, Covered(v, pending, k))
  }

  method LinkNext(ghost v: Verdicts, made: Made, event: Id, ghost rows0: map<Id, Row>, links: Links, pending: seq<nat>, k: nat)
    returns (after: Links)
    requires k < |pending| && Reached(v, made, event, rows0, links, pending, k)
    ensures Reached(v, made, event, rows0, after, pending, k + 1)
  {
    var i := pending[k];
    RowReady(v, made, pending, k);
    var successor := made.nodes[i].value;
    after := LinkRow(v, made, event, rows0, links, Covered(v, pending, k), i, made.tasks[successor].predecessors, successor);
  }

  method LinkAll(ghost v: Verdicts, made: Made, event: Id, ghost rows0: map<Id, Row>, links: Links, pending: seq<nat>)
    returns (after: Links)
    requires Reached(v, made, event, rows0, links, pending, 0)
    ensures Reached(v, made, event, rows0, after, pending, |pending|)
  {
    after := links;
    for k := 0 to |pending|
      invariant Reached(v, made, event, rows0, after, pending, k)
    {
      after := LinkNext(v, made, event, rows0, after, pending, k);
    }
  }

  /** `base` and `nextRow` are beyond every node and row there is. */
  method ProcessAcceptedImport(inp: Input, rows0: map<Id, Row>, nextRow: Id, base: Node) returns (a: Accept)
    requires AllAcyclic(rows0) && forall id :: id in rows0 ==> id < nextRow && Ends(rows0[id].link).dst < base
    ensures RowsDone(RowVerdicts(inp), base, a)
    ensures PiecesDone(RowVerdicts(inp), inp.event, a)
    ensures |a.made.nodes| == |inp.rows| && RowsOk(RowVerdicts(inp), a.made, inp.event, rows0, a.links)
    ensures a.summary == Summary(|a.made.tasks|, a.links.linked, |a.rowItems| + |a.links.items|)
  {
    var made, pending, items := CreateTasks(inp, base);
    ghost var v := RowVerdicts(inp);
    var links := Links(rows0, nextRow, [], 0);
    assert SecondPass(v, made, inp.event, rows0, links, {});
    assert NoRowInto(rows0, made);
    links := LinkAll(v, made, inp.event, rows0, links, pending);
    AllCovered(v, made, inp.event, rows0, links, pending);
    a := Accept(made, links, items, Summary(|made.tasks|, links.linked, |items| + |links.items|));
  }

  lemma ItemIs(v: Verdicts, made: Made, links: Links, rowItems: seq<Item>, k: nat)
    requires RowItemsOk(v, made.nodes, rowItems) && |made.nodes| == |v| && PieceItemsAre(v, made, links)
    requires k < |rowItems + links.items|
    ensures var item := (rowItems + links.items)[k];
            if k < |rowItems| then item == rowItems[k] && RowItem(v, made.nodes, item)
            else item == links.items[k - |rowItems|] && PieceItem(v, made, item)
  {
  }

  /** No two items of an accept are about the same thing, and each pass's items are its own. */
  lemma ItemsAreDistinct(v: Verdicts, made: Made, links: Links, rowItems: seq<Item>)
    requires RowItemsOk(v, made.nodes, rowItems) && |made.nodes| == |v| && PieceItemsAre(v, made, links)
    ensures OncePerSubject(rowItems + links.items)
    ensures forall i {:trigger RowRefused(i)} :: Listed(rowItems + links.items, RowRefused(i)) <==> Listed(rowItems, RowRefused(i))
    ensures forall i, j {:trigger Piece(i, j)} :: Listed(rowItems + links.items, Piece(i, j)) <==> Listed(links.items, Piece(i, j))
  {
    var items := rowItems + links.items;
    forall k, l | 0 <= k < l < |items|
      ensures items[k].about != items[l].about
    {
      ItemIs(v, made, links, rowItems, k);
      ItemIs(v, made, links, rowItems, l);
    }
    forall i {:trigger RowRefused(i)}
      ensures Listed(items, RowRefused(i)) <==> Listed(rowItems, RowRefused(i))
    {
      ListedStill(rowItems, links.items, RowRefused(i));
      if k: nat :| k < |items| && items[k].about == RowRefused(i) {
        ItemIs(v, made, links, rowItems, k);
      }
    }
    forall i, j {:trigger Piece(i, j)}
      ensures Listed(items, Piece(i, j)) <==> Listed(links.items, Piece(i, j))
    {
      if k: nat :| k < |links.items| && links.items[k].about == Piece(i, j) {
        assert items[|rowItems| + k].about == Piece(i, j);
      }
      if k: nat :| k < |items| && items[k].about == Piece(i, j) {
        ItemIs(v, made, links, rowItems, k);
      }
    }
  }

  /** Every row ends as exactly one Task or as exactly one item about that row, never both. */
  lemma RowsAreConserved(v: Verdicts, base: Node, a: Accept, i: nat)
    requires RowsDone(v, base, a) && i < |v|
    ensures a.made.nodes[i].Some? <==> !Listed(Items(a), RowRefused(i))
    ensures a.made.nodes[i].Some? ==> a.made.nodes[i].value in a.made.tasks && v[i] == Ok(a.made.tasks[a.made.nodes[i].value])
    ensures a.made.nodes[i].Some? ==> forall j :: 0 <= j < |v| && j != i ==> a.made.nodes[j] != a.made.nodes[i]
    ensures OncePerSubject(Items(a))
  {
    ItemsAreDistinct(v, a.made, a.links, a.rowItems);
    RowSettled(v, a.made, base, a.rowItems, i);
  }

  lemma RowSettled(v: Verdicts, made: Made, base: Node, rowItems: seq<Item>, i: nat)
    requires MadeOk(v, made, base) && RowItemsOk(v, made.nodes, rowItems) && i < |v|
    ensures made.nodes[i].Some? <==> !Listed(rowItems, RowRefused(i))
    ensures made.nodes[i].Some? ==> made.nodes[i].value in made.tasks && v[i] == Ok(made.tasks[made.nodes[i].value])
  {
    assert TaskFor(v, made, i);
    assert RowListed(v, rowItems, i);
    if k: nat :| k < |rowItems| && rowItems[k].about == RowRefused(i) {
      assert RowItem(v, made.nodes, rowItems[k]);
    }
  }

  /**
   Every non-blank predecessor name of a created Task ends as an edge or as an item about it, never both;
   for a known name, the item means that the graph leads from the Task back to that predecessor.
   */
  lemma PiecesAreConserved(v: Verdicts, event: Id, a: Accept, i: nat, j: nat)
    requires PiecesDone(v, event, a) && i < |v| && v[i].Ok?
    requires j < |Split(v[i].value.predecessors)| && Strip(Split(v[i].value.predecessors)[j]) != ""
    ensures a.made.nodes[i].Some?
    ensures var es, l := Edges(a.links.rows, event), Lower(Strip(Split(v[i].value.predecessors)[j]));
            var flagged := Listed(a.links.items, Piece(i, j));
            if l in a.made.titles then
              && (flagged <==> Edge(a.made.titles[l], a.made.nodes[i].value) !in es)
              && (flagged <==> Reaches(es, a.made.nodes[i].value, a.made.titles[l]))
            else flagged
  {
    assert TaskFor(v, a.made, i) && Asked(v, i, j);
    assert PieceOk(v, a.made, event, a.links, i, j);
    if Known(v, a.made, i, j) && Wanted(v, a.made, i, j) in Edges(a.links.rows, event) {
      var es, e := Edges(a.links.rows, event), Wanted(v, a.made, i, j);
      EdgeKeepsAcyclic(es, e);
      assert es + {e} == es;
    }
  }

  lemma EndsAreTasks(v: Verdicts, made: Made, event: Id, base: Node, row: Row)
    requires MadeOk(v, made, base) && NewEdge(v, made, event, row)
    ensures Ends(row.link).src in made.tasks && Ends(row.link).dst in made.tasks
  {
    var i: nat, j: nat :| Known(v, made, i, j) && made.nodes[i].Some? && Ends(row.link) == Wanted(v, made, i, j);
    var l := Lower(PieceName(v, i, j));
    assert TitleOk(v, made, l);
    var t: nat :| LastTitled(v, l, t) && made.nodes[t] == Some(made.titles[l]);
    assert TaskFor(v, made, i) && TaskFor(v, made, t);
  }

  /** New edges join only Tasks of this accept, exactly `linked` of them, and no Event's graph has a cycle. */
  lemma OnlyOwnTasksAreLinked(v: Verdicts, event: Id, rows0: map<Id, Row>, base: Node, made: Made, links: Links)
    requires MadeOk(v, made, base) && RowsOk(v, made, event, rows0, links)
    ensures forall id :: id in links.rows && id !in rows0 ==>
              var row := links.rows[id];
              row.event == event && row.link.TaskEdge? && Ends(row.link).src in made.tasks && Ends(row.link).dst in made.tasks
    ensures AllAcyclic(links.rows) && |links.rows.Keys - rows0.Keys| == links.linked
  {
    forall id | id in links.rows && id !in rows0
      ensures Ends(links.rows[id].link).src in made.tasks && Ends(links.rows[id].link).dst in made.tasks
    {
      EndsAreTasks(v, made, event, base, links.rows[id]);
    }
    NewRowsCount(rows0, links.rows);
  }

  lemma NewRowsCount(rows0: map<Id, Row>, rows: map<Id, Row>)
    requires rows0.Keys <= rows.Keys
    ensures |rows.Keys - rows0.Keys| == |rows| - |rows0|
  {
    assert rows.Keys == (rows.Keys - rows0.Keys) + rows0.Keys;
  }

  /** A Task that names itself as predecessor is sent to review as a cycle, not skipped. */
  lemma SelfPredecessorIsReviewed(v: Verdicts, event: Id, a: Accept, i: nat, j: nat)
    requires PiecesDone(v, event, a) && Known(v, a.made, i, j)
    requires a.made.nodes[i] == Some(a.made.titles[Lower(PieceName(v, i, j))])
    ensures Listed(a.links.items, Piece(i, j))
  {
    PiecesAreConserved(v, event, a, i, j);
    ReachesSelf(Edges(a.links.rows, event), a.made.nodes[i].value);
  }

  /** A predecessor name is known exactly if a row with that title made a Task; of several the last one is meant. */
  lemma LastTitleWins(v: Verdicts, made: Made, base: Node, l: string)
    requires MadeOk(v, made, base)
    ensures l in made.titles <==> exists t :: 0 <= t < |v| && v[t].Ok? && Lower(v[t].value.title) == l
    ensures l in made.titles ==> exists t :: 0 <= t < |v| && v[t].Ok? && Lower(v[t].value.title) == l && made.nodes[t] == Some(made.titles[l])
                                             && forall j :: t < j < |v| ==> !(v[j].Ok? && Lower(v[j].value.title) == l)
  {
    assert TitleOk(v, made, l);
    assert forall t: nat :: t < |v| ==> (HasTitle(v, t, l) <==> v[t].Ok? && Lower(v[t].value.title) == l);
    if l in made.titles {
      var t: nat :| LastTitled(v, l, t) && made.nodes[t] == Some(made.titles[l]);
      assert HasTitle(v, t, l);
    }
  }
}
