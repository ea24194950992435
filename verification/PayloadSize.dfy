/** The import size limit: an explicit-stack walk that stops early, against the size it
    estimates. */
module PayloadSize {
  import opened Common

  datatype Json =
    | Obj(fields: seq<Field>)
    | Arr(items: seq<Json>)
    | Str(text: string)
    | Bytes(length: nat)
    | Null
    | Bool(b: bool)
    | Number
    | Other(repr: string)

  datatype Field = Field(key: string, value: Json)

  const LIMIT: nat := 100 * 1024 * 1024
  const BUDGET: nat := LIMIT + 1

  /** The estimate, by structure. */
  function Size(j: Json): nat
    decreases j
  {
    match j
    case Obj(fields) => 2 + SizeOfFields(fields)
    case Arr(items) => 2 + SizeOfAll(items)
    case Str(text) => |text| + 2
    case Bytes(length) => length
    case Null => 5
    case Bool(_) => 5
    case Number => 24
    case Other(repr) => |repr| + 2
  }

  function SizeOfAll(items: seq<Json>): nat
    decreases items
  {
    if items == [] then 0 else SizeOfAll(items[..|items| - 1]) + Size(items[|items| - 1])
  }

  function SizeOfFields(fields: seq<Field>): nat
    decreases fields
  {
    if fields == [] then 0
    else SizeOfFields(fields[..|fields| - 1]) + |fields[|fields| - 1].key| + 3 + Size(fields[|fields| - 1].value)
  }

  /** How many values a tree holds; what the walk uses up. */
  function Nodes(j: Json): nat
    decreases j
  {
    match j
    case Obj(fields) => 1 + NodesOfFields(fields)
    case Arr(items) => 1 + NodesOfAll(items)
    case _ => 1
  }

  function NodesOfAll(items: seq<Json>): nat
    decreases items
  {
    if items == [] then 0 else NodesOfAll(items[..|items| - 1]) + Nodes(items[|items| - 1])
  }

  function NodesOfFields(fields: seq<Field>): nat
    decreases fields
  {
    if fields == [] then 0 else NodesOfFields(fields[..|fields| - 1]) + Nodes(fields[|fields| - 1].value)
  }

  lemma {:induction false} AllSnoc(items: seq<Json>, j: Json)
    ensures SizeOfAll(items + [j]) == SizeOfAll(items) + Size(j)
    ensures NodesOfAll(items + [j]) == NodesOfAll(items) + Nodes(j)
  {
    assert (items + [j])[..|items|] == items;
  }

  lemma {:induction false} AllAppend(x: seq<Json>, y: seq<Json>)
    ensures SizeOfAll(x + y) == SizeOfAll(x) + SizeOfAll(y)
    ensures NodesOfAll(x + y) == NodesOfAll(x) + NodesOfAll(y)
  {
    if y == [] {
      assert x + y == x;
    } else {
      var init, last := y[..|y| - 1], y[|y| - 1];
      AllAppend(x, init);
      AllSnoc(x + init, last);
      InitLast(y);
      Regroup(x, init, [last]);
    }
  }

  /** One dictionary: keys are counted at once, values go on the stack; stops as soon as the
      budget is passed. */
  method PushFields(fields: seq<Field>, stack: seq<Json>, total: nat, budget: nat)
    returns (stack': seq<Json>, total': nat)
    ensures total' <= budget ==>
              && total' + SizeOfAll(stack') == total + SizeOfAll(stack) + SizeOfFields(fields)
              && NodesOfAll(stack') == NodesOfAll(stack) + NodesOfFields(fields)
    ensures total' <= total + SizeOfFields(fields)
  {
    stack', total' := stack, total;
    for i := 0 to |fields|
      invariant i > 0 ==> total' <= budget
      invariant total' + SizeOfAll(stack') == total + SizeOfAll(stack) + SizeOfFields(fields[..i])
      invariant total' <= total + SizeOfFields(fields[..i])
      invariant NodesOfAll(stack') == NodesOfAll(stack) + NodesOfFields(fields[..i])
    {
      assert fields[..i + 1][..i] == fields[..i];
      total' := total' + |fields[i].key| + 3;
      AllSnoc(stack', fields[i].value);
      stack' := stack' + [fields[i].value];
      if total' > budget {
        FieldsGrow(fields, i + 1);
        return;
      }
    }
    assert fields[..|fields|] == fields;
  }

  lemma {:induction false} FieldsGrow(fields: seq<Field>, n: nat)
    requires n <= |fields|
    ensures SizeOfFields(fields[..n]) <= SizeOfFields(fields)
    decreases |fields| - n
  {
    if n < |fields| {
      FieldsGrow(fields, n + 1);
      assert fields[..n + 1][..n] == fields[..n];
    } else {
      assert fields[..n] == fields;
    }
  }

  /** The walk ends, returns the size if that is within the budget, and otherwise something
      above the budget that the size is not below. */
  method ApproxPayloadBytes(obj: Json, budget: nat) returns (total: nat)
    ensures total <= budget ==> total == Size(obj)
    ensures total > budget ==> Size(obj) >= total
  {
    total := 0;
    var stack := [obj];
    assert stack[..0] == [];
    assert SizeOfAll(stack) == Size(obj);
    while stack != []
      invariant total + SizeOfAll(stack) == Size(obj) && total <= budget
      decreases NodesOfAll(stack)
    {
      var item := stack[|stack| - 1];
      assert NodesOfAll(stack) == NodesOfAll(stack[..|stack| - 1]) + Nodes(item);
      stack := stack[..|stack| - 1];
      match item {
        case Obj(fields) =>
          stack, total := PushFields(fields, stack, total + 2, budget);
        case Arr(items) =>
          total := total + 2;
          AllAppend(stack, items);
          stack := stack + items;
        case Str(text) => total := total + |text| + 2;
        case Bytes(length) => total := total + length;
        case Null => total := total + 5;
        case Bool(_) => total := total + 5;
        case Number => total := total + 24;
        case Other(repr) => total := total + |repr| + 2;
      }
      if total > budget {
        return;
      }
    }
  }

  /** The validator rejects exactly the payloads whose size is over 100 MiB. */
  method CheckSize(data: Json) returns (accepted: bool)
    ensures accepted <==> Size(data) <= LIMIT
  {
    var bytes := ApproxPayloadBytes(data, BUDGET);
    accepted := bytes <= LIMIT;
  }
}
