/** Expressions as nested tuples and their value over a batch (exec/expr.py, plan/rules.py). */
module Expressions {
  import opened Results

  type Value = int
  type Column = seq<Value>

  /** A Python value in an expression tuple: a string, a tuple, a list, or anything else. */
  datatype Node = Str(s: string) | Tup(items: seq<Node>) | List(id: int) | Atom(id: int)

  /** A batch: its row count and its columns by name. */
  datatype Table = Table(count: nat, columns: map<string, Column>)

  /** The Arrow kernels and bound functions, which an expression applies to whole columns. */
  datatype Kernels = Kernels(
    literal: Node -> Value,
    operator: (string, seq<Column>) -> Column,
    call: (int, seq<Column>) -> Column,
    member: (Column, Node) -> Column,
    truth: Value -> bool)

  // ---------------------------------------------------------------- columns mentioned

  /** `_columns_used`. */
  function ColumnsUsed(node: Node): seq<string> {
    if !node.Tup? || node.items == [] then []
    else
      var head := node.items[0];
      if head == Str("col") && |node.items| >= 2 && node.items[1].Str? then [node.items[1].s]
      else UsedByAll(if head.Str? then node.items[1..] else node.items)
  }

  function UsedByAll(nodes: seq<Node>): seq<string> {
    if nodes == [] then [] else ColumnsUsed(nodes[0]) + UsedByAll(nodes[1..])
  }

  lemma {:induction false} UsedByPart(nodes: seq<Node>, i: nat, c: string)
    requires i < |nodes| && c in ColumnsUsed(nodes[i])
    ensures c in UsedByAll(nodes)
    decreases i
  {
    if i > 0 {
      UsedByPart(nodes[1..], i - 1, c);
    }
  }

  /** A column reference to `c` stands somewhere in the expression, or in one of its operands. */
  ghost predicate Mentions(node: Node, c: string) {
    && node.Tup? && node.items != []
    && if node.items[0] == Str("col") && |node.items| >= 2 && node.items[1].Str? then node.items[1].s == c
       else exists i :: (if node.items[0].Str? then 1 else 0) <= i < |node.items| && Mentions(node.items[i], c)
  }

  lemma {:induction false} UsedMeansMentioned(node: Node, c: string)
    ensures c in ColumnsUsed(node) <==> Mentions(node, c)
    decreases node, 1
  {
    if node.Tup? && node.items != [] {
      var first := if node.items[0].Str? then 1 else 0;
      var rest := node.items[first..];
      forall i | 0 <= i < |rest|
        ensures c in ColumnsUsed(rest[i]) <==> Mentions(rest[i], c)
      {
        assert rest[i] == node.items[i + first];
        UsedMeansMentioned(node.items[i + first], c);
      }
      UsedByAllIff(rest, c);
      PartsMention(node.items, first, c);
    }
  }

  lemma PartsMention(items: seq<Node>, first: nat, c: string)
    requires first <= |items|
    ensures (exists i :: 0 <= i < |items[first..]| && Mentions(items[first..][i], c))
       <==> exists i :: first <= i < |items| && Mentions(items[i], c)
  {
    if i :| first <= i < |items| && Mentions(items[i], c) {
      assert items[first..][i - first] == items[i];
    }
  }

  lemma {:induction false} UsedByAllIff(nodes: seq<Node>, c: string)
    ensures c in UsedByAll(nodes) <==> exists i :: 0 <= i < |nodes| && c in ColumnsUsed(nodes[i])
  {
    if nodes != [] {
      UsedByAllIff(nodes[1..], c);
      assert nodes == [nodes[0]] + nodes[1..];
      if i :| 0 <= i < |nodes[1..]| && c in ColumnsUsed(nodes[1..][i]) {
        assert nodes[i + 1] == nodes[1..][i];
      }
      if i :| 0 <= i < |nodes| && c in ColumnsUsed(nodes[i]) {
        assert i > 0 ==> nodes[1..][i - 1] == nodes[i];
      }
    }
  }

  // ---------------------------------------------------------------- evaluation

  predicate IsComparison(head: string) {
    head in ["eq", "ne", "lt", "le", "gt", "ge", "and", "or"]
  }

  predicate IsLiteralList(node: Node) {
    node.Tup? && |node.items| >= 2 && node.items[0] == Str("lit") && (node.items[1].List? || node.items[1].Tup?)
  }

  function Operate(k: Kernels, head: string, args: seq<Result<Column>>): Result<Column> {
    match Columns(args)
    case Err(code) => Err(code)
    case Ok(columns) => Ok(k.operator(head, columns))
  }

  function Call(k: Kernels, fn: int, args: seq<Result<Column>>): Result<Column> {
    match Columns(args)
    case Err(code) => Err(code)
    case Ok(columns) => Ok(k.call(fn, columns))
  }

  function Member(k: Kernels, arg: Result<Column>, values: Node): Result<Column> {
    if arg.Err? then arg else Ok(k.member(arg.value, values))
  }

  /** All columns, or the first error. */
  function Columns(args: seq<Result<Column>>): (r: Result<seq<Column>>)
    ensures r.Ok? ==> (|args| >= 1 ==> args[0].Ok?) && (|args| >= 2 ==> args[1].Ok?)
  {
    if args == [] then Ok([])
    else if args[0].Err? then Err(args[0].code)
    else
      match Columns(args[1..])
      case Err(code) => Err(code)
      case Ok(rest) => Ok([args[0].value] + rest)
  }

  /** `compile_expr(e)` applied to a batch. */
  function Eval(k: Kernels, e: Node, t: Table): Result<Column> {
    if !e.Tup? || e.items == [] || !e.items[0].Str? then Err("CDB-6010")
    else
      var head, n := e.items[0].s, |e.items|;
      if head == "col" then
        if n != 2 || !e.items[1].Str? then Err("CDB-6010")
        else if e.items[1].s in t.columns then Ok(t.columns[e.items[1].s]) else Err("KeyError")
      else if head == "lit" then
        if n != 2 then Err("CDB-6010") else Ok(seq(t.count, _ => k.literal(e.items[1])))
      else if IsComparison(head) then
        if n != 3 then Err("CDB-6010")
        else Operate(k, head, [Eval(k, e.items[1], t), Eval(k, e.items[2], t)])
      else if head == "not" then
        if n != 2 then Err("CDB-6010") else Operate(k, "not", [Eval(k, e.items[1], t)])
      else if head == "py_unary" then
        if n != 3 || !e.items[1].Atom? then Err("CDB-6010")
        else Call(k, e.items[1].id, [Eval(k, e.items[2], t)])
      else if head == "py_binary" then
        if n != 4 || !e.items[1].Atom? then Err("CDB-6010")
        else Call(k, e.items[1].id, [Eval(k, e.items[2], t), Eval(k, e.items[3], t)])
      else if head == "in" then
        if n != 3 || !IsLiteralList(e.items[2]) then Err("CDB-6010")
        else Member(k, Eval(k, e.items[1], t), e.items[2].items[1])
      else Err("CDB-6010")
  }

  /** Two batches of the same height that hold the same column under each of the names, or neither does. */
  ghost predicate Agree(t: Table, u: Table, names: seq<string>) {
    && t.count == u.count
    && forall c :: c in names ==>
          (c in t.columns <==> c in u.columns) && (c in t.columns && c in u.columns ==> t.columns[c] == u.columns[c])
  }

  lemma AgreePart(t: Table, u: Table, e: Node, i: nat)
    requires e.Tup? && e.items != [] && e.items[0].Str? && e.items[0].s != "col" && 1 <= i < |e.items|
    requires Agree(t, u, ColumnsUsed(e))
    ensures Agree(t, u, ColumnsUsed(e.items[i]))
  {
    var rest := e.items[1..];
    forall c | c in ColumnsUsed(e.items[i])
      ensures c in ColumnsUsed(e)
    {
      assert rest[i - 1] == e.items[i];
      UsedByPart(rest, i - 1, c);
    }
  }

  /** The value of an expression depends on the batch only through its height and the columns it mentions. */
  lemma {:induction false} EvalDependsOnColumnsUsed(k: Kernels, e: Node, t: Table, u: Table)
    requires Agree(t, u, ColumnsUsed(e))
    ensures Eval(k, e, t) == Eval(k, e, u)
    decreases e, 1
  {
    if e.Tup? && e.items != [] && e.items[0].Str? && e.items[0].s !in ["col", "lit"] {
      OperandsAgree(k, e, t, u);
    }
  }

  lemma {:induction false} OperandsAgree(k: Kernels, e: Node, t: Table, u: Table)
    requires e.Tup? && e.items != [] && e.items[0].Str? && e.items[0].s !in ["col", "lit"]
    requires Agree(t, u, ColumnsUsed(e))
    ensures Eval(k, e, t) == Eval(k, e, u)
    decreases e, 0
  {
    forall i | 1 <= i < |e.items|
      ensures Eval(k, e.items[i], t) == Eval(k, e.items[i], u)
    {
      AgreePart(t, u, e, i);
      EvalDependsOnColumnsUsed(k, e.items[i], t, u);
    }
  }

  /** `u` has whatever `t` has of the named columns. */
  ghost predicate Covers(t: Table, u: Table, names: seq<string>) {
    t.count == u.count && forall c :: c in names && c in t.columns ==> c in u.columns && u.columns[c] == t.columns[c]
  }

  lemma CoversPart(t: Table, u: Table, e: Node, i: nat)
    requires e.Tup? && e.items != [] && e.items[0].Str? && e.items[0].s != "col" && 1 <= i < |e.items|
    requires Covers(t, u, ColumnsUsed(e))
    ensures Covers(t, u, ColumnsUsed(e.items[i]))
  {
    var rest := e.items[1..];
    forall c | c in ColumnsUsed(e.items[i])
      ensures c in ColumnsUsed(e)
    {
      assert rest[i - 1] == e.items[i];
      UsedByPart(rest, i - 1, c);
    }
  }

  /** An expression that has a value keeps it on a batch that covers the columns it mentions. */
  lemma {:induction false} EvalMonotone(k: Kernels, e: Node, t: Table, u: Table)
    requires Covers(t, u, ColumnsUsed(e)) && Eval(k, e, t).Ok?
    ensures Eval(k, e, u) == Eval(k, e, t)
    decreases e
  {
    if e.items[0].s !in ["col", "lit"] {
      forall i | 1 <= i < |e.items| && Eval(k, e.items[i], t).Ok?
        ensures Eval(k, e.items[i], u) == Eval(k, e.items[i], t)
      {
        CoversPart(t, u, e, i);
        EvalMonotone(k, e.items[i], t, u);
      }
    }
  }
}
