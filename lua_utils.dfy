/** The marshaler between a property tree and a Lua table: `Lua_ToPTree`
    reads the table on top of the Lua stack into a tree, and
    `Lua_PushPTreeAsTable` pushes a tree as a new table.  The tree and the
    Lua values are plain datatypes; the two conversions are methods with the
    source's loops, each proved against a specification function. */
module LuaUtils {
  import opened Base

  // =====================================================================
  // The property tree

  /** A ptree node: its data and its children in order.  A child under the
      empty key is an array element. */
  datatype Tree = Node(data: string, children: seq<Child>)
  datatype Child = Child(key: string, tree: Tree)

  /** A default-constructed ptree. */
  const EMPTY: Tree := Node("", [])

  function Leaf(data: string): Tree { Node(data, []) }

  /** The position of the first child under `key`, or |cs| if there is none. */
  function FindKey(cs: seq<Child>, key: string): (i: nat)
    ensures i <= |cs|
    ensures i < |cs| ==> cs[i].key == key
    ensures forall j :: 0 <= j < i ==> cs[j].key != key
  {
    if cs == [] then 0
    else if cs[0].key == key then 0
    else 1 + FindKey(cs[1..], key)
  }

  /** `ptree::put(key, value)` for a key that is a single path segment: the
      data of the child under `key` becomes `value` (its own children stay),
      or a new leaf child is appended. */
  function PutValue(t: Tree, key: string, value: string): Tree
  {
    var i := FindKey(t.children, key);
    if i < |t.children| then
      t.(children := t.children[i := Child(key, t.children[i].tree.(data := value))])
    else
      t.(children := t.children + [Child(key, Leaf(value))])
  }

  /** `ptree::put_child(key, sub)` for a key that is a single path segment:
      the child under `key` is replaced by `sub`, or `sub` is appended. */
  function PutChild(t: Tree, key: string, sub: Tree): Tree
  {
    var i := FindKey(t.children, key);
    if i < |t.children| then t.(children := t.children[i := Child(key, sub)])
    else t.(children := t.children + [Child(key, sub)])
  }

  /** `ptree::push_back`. */
  function PushBack(t: Tree, c: Child): Tree
  {
    t.(children := t.children + [c])
  }

  // ---------------------------------------------------------------------
  // ptree::sort(): a stable sort of the children by key

  predicate KeySorted(cs: seq<Child>)
  {
    forall i, j :: 0 <= i < j < |cs| ==> !StrLess(cs[j].key, cs[i].key)
  }

  /** Inserts `c` after every child whose key is not above its own. */
  function InsertByKey(sorted: seq<Child>, c: Child): (r: seq<Child>)
    ensures multiset(r) == multiset(sorted) + multiset{c}
  {
    if sorted == [] || !StrLess(c.key, sorted[|sorted| - 1].key) then sorted + [c]
    else
      assert sorted == sorted[..|sorted| - 1] + [sorted[|sorted| - 1]];
      InsertByKey(sorted[..|sorted| - 1], c) + [sorted[|sorted| - 1]]
  }

  function SortByKey(cs: seq<Child>): (r: seq<Child>)
    ensures multiset(r) == multiset(cs)
  {
    if cs == [] then []
    else
      assert cs == cs[..|cs| - 1] + [cs[|cs| - 1]];
      InsertByKey(SortByKey(cs[..|cs| - 1]), cs[|cs| - 1])
  }

  function Sorted(t: Tree): Tree
  {
    t.(children := SortByKey(t.children))
  }

  // =====================================================================
  // Lua values

  /** The Lua values the marshaler distinguishes.  Numbers are integers; a
      table is its hash part, in the order `lua_next` visits it, and its
      array part t[1] .. t[n], n being `luaL_len`.  `Unsupported` stands for
      nil (a hole in the array part), functions, userdata and threads. */
  datatype LuaValue =
    | Boolean(b: bool)
    | Number(n: int)
    | Str(s: string)
    | Table(hash: seq<Entry>, arrayPart: seq<LuaValue>)
    | Unsupported
  datatype Entry = Entry(key: LuaValue, value: LuaValue)

  /** What the conversion writes to the process log. */
  datatype Diagnostic =
    | NoArgument              // error: nothing on the stack
    | NotATable               // error: the top of the stack is not a table
    | UnhandledKeyType        // warning: a key neither string nor number
    | UnhandledValueType      // warning: an unsupported value under a string key
    | UnhandledArrayValueType // warning: an unsupported value in the array part

  /** The value on top of a stack; for termination measures only. */
  function Top(stack: seq<LuaValue>): LuaValue
  {
    if stack == [] then Unsupported else stack[|stack| - 1]
  }

  /** A key `put` and `put_child` take as one path segment: non-empty and
      without the '.' separator. */
  predicate PlainKey(k: string) { k != "" && '.' !in k }

  /** Every string key of the table and of the tables under it is plain. */
  predicate PlainKeys(v: LuaValue)
  {
    match v
    case Table(hash, arrayPart) =>
      && (forall i :: 0 <= i < |hash| ==> hash[i].key.Str? ==> PlainKey(hash[i].key.s))
      && (forall i :: 0 <= i < |hash| ==> PlainKeys(hash[i].value))
      && (forall i :: 0 <= i < |arrayPart| ==> PlainKeys(arrayPart[i]))
    case _ => true
  }

  // =====================================================================
  // BoolTranslator and the scalar texts

  /** `BoolTranslator::get_value`: "true" or "false" in any letter case; the
      empty string is no boolean. */
  function BoolGetValue(s: string): Option<bool>
  {
    if s != [] then
      if IEquals(s, "true") then Some(true)
      else if IEquals(s, "false") then Some(false)
      else None
    else None
  }

  /** `BoolTranslator::put_value`, which is also the text `ptree::put` writes
      for a bool. */
  function BoolPutValue(b: bool): string
  {
    if b then "true" else "false"
  }

  /** The text `ptree::put` writes for a Lua number, and the text the number
      probe `get_optional<lua_Number>` reads back. */
  function NumberText(n: int): string { IntText(n) }

  function NumberGetValue(s: string): Option<int> { ParseInt(s) }

  // =====================================================================
  // Lua_ToPTree: the specification

  /** What `Lua_ToPTree(state, outTree)` leaves in `outTree`. */
  function ToPTree(stack: seq<LuaValue>, outTree: Tree): Tree
  {
    if |stack| < 1 then outTree
    else if stack[|stack| - 1].Table? then TableTree(stack[|stack| - 1], outTree)
    else outTree
  }

  /** What `Lua_ToPTree` logs. */
  function ToPTreeLog(stack: seq<LuaValue>): seq<Diagnostic>
  {
    if |stack| < 1 then [NoArgument]
    else if stack[|stack| - 1].Table? then TableLog(stack[|stack| - 1])
    else [NotATable]
  }

  /** The two passes over a table: the hash part through `lua_next`, the
      sort, then t[1] .. t[n]. */
  function TableTree(v: LuaValue, outTree: Tree): Tree
    requires v.Table?
    decreases v, 1, 0
  {
    ArrayPass(v, |v.arrayPart|, Sorted(HashPass(v, |v.hash|, outTree)))
  }

  /** The tree after the first `k` visits of `lua_next`. */
  function HashPass(v: LuaValue, k: nat, outTree: Tree): Tree
    requires v.Table? && k <= |v.hash|
    decreases v, 0, k
  {
    if k == 0 then outTree
    else
      assert v.hash[k - 1] in v.hash;
      EntryPut(HashPass(v, k - 1, outTree), v.hash[k - 1])
  }

  /** `Lua_PushNextToPTree`: string keys are converted, numeric keys are
      left to the second pass, other keys are skipped. */
  function EntryPut(t: Tree, e: Entry): Tree
    decreases e.value, 3, 0
  {
    match e.key
    case Str(key) => ValuePut(t, key, e.value)
    case _ => t
  }

  /** `Lua_PushNextValueToPTree`. */
  function ValuePut(t: Tree, key: string, w: LuaValue): Tree
    decreases w, 2, 0
  {
    match w
    case Boolean(b) => PutValue(t, key, BoolPutValue(b))
    case Number(n) => PutValue(t, key, NumberText(n))
    case Str(s) => PutValue(t, key, s)
    case Table(_, _) => PutChild(t, key, TableTree(w, EMPTY))
    case Unsupported => t
  }

  /** The tree after the first `k` indices of the second pass. */
  function ArrayPass(v: LuaValue, k: nat, t: Tree): Tree
    requires v.Table? && k <= |v.arrayPart|
    decreases v, 0, k
  {
    if k == 0 then t
    else
      assert v.arrayPart[k - 1] in v.arrayPart;
      ArrayPut(ArrayPass(v, k - 1, t), v.arrayPart[k - 1])
  }

  /** `Lua_PushNextValueInArrayToPTree`. */
  function ArrayPut(t: Tree, w: LuaValue): Tree
    decreases w, 2, 0
  {
    match w
    case Boolean(b) => PushBack(t, Child("", Leaf(BoolPutValue(b))))
    case Number(n) => PushBack(t, Child("", Leaf(NumberText(n))))
    case Str(s) => PushBack(t, Child("", Leaf(s)))
    case Table(_, _) => PushBack(t, Child("", TableTree(w, EMPTY)))
    case Unsupported => t
  }

  function TableLog(v: LuaValue): seq<Diagnostic>
    requires v.Table?
    decreases v, 1, 0
  {
    HashLog(v, |v.hash|) + ArrayLog(v, |v.arrayPart|)
  }

  function HashLog(v: LuaValue, k: nat): seq<Diagnostic>
    requires v.Table? && k <= |v.hash|
    decreases v, 0, k
  {
    if k == 0 then []
    else
      assert v.hash[k - 1] in v.hash;
      HashLog(v, k - 1) + EntryLog(v.hash[k - 1])
  }

  function EntryLog(e: Entry): seq<Diagnostic>
    decreases e.value, 3, 0
  {
    match e.key
    case Str(_) => ValueLog(e.value, UnhandledValueType)
    case Number(_) => []
    case _ => [UnhandledKeyType]
  }

  /** The log of one converted value: a nested table's own log, or the
      warning `unhandled` for an unsupported value. */
  function ValueLog(w: LuaValue, unhandled: Diagnostic): seq<Diagnostic>
    decreases w, 2, 0
  {
    match w
    case Table(_, _) => TableLog(w)
    case Unsupported => [unhandled]
    case _ => []
  }

  function ArrayLog(v: LuaValue, k: nat): seq<Diagnostic>
    requires v.Table? && k <= |v.arrayPart|
    decreases v, 0, k
  {
    if k == 0 then []
    else
      assert v.arrayPart[k - 1] in v.arrayPart;
      ArrayLog(v, k - 1) + ValueLog(v.arrayPart[k - 1], UnhandledArrayValueType)
  }

  // =====================================================================
  // Lua_ToPTree: the methods

  /** `Lua_ToPTree`: converts the table on top of the stack into `outTree`,
      without popping it; on an empty stack or a non-table it logs an error
      and leaves `outTree` as it was. */
  method LuaToPTree(stack: seq<LuaValue>, outTree: Tree) returns (tree: Tree, log: seq<Diagnostic>)
    requires PlainKeys(Top(stack))
    ensures tree == ToPTree(stack, outTree) && log == ToPTreeLog(stack)
    decreases Top(stack), 1
  {
    tree, log := outTree, [];
    if |stack| < 1 {
      log := [NoArgument];
      return;
    }
    var table := stack[|stack| - 1];
    if !table.Table? {
      log := [NotATable];
      return;
    }
    var hashLog, arrayLog;
    tree, hashLog := HashLoop(stack, outTree);
    tree := Sorted(tree);
    tree, arrayLog := ArrayLoop(stack, tree);
    log := hashLog + arrayLog;
  }

  /** The `lua_next` loop of `Lua_ToPTree` over the hash part. */
  method HashLoop(stack: seq<LuaValue>, outTree: Tree) returns (tree: Tree, log: seq<Diagnostic>)
    requires |stack| >= 1 && stack[|stack| - 1].Table? && PlainKeys(stack[|stack| - 1])
    ensures tree == HashPass(stack[|stack| - 1], |stack[|stack| - 1].hash|, outTree)
    ensures log == HashLog(stack[|stack| - 1], |stack[|stack| - 1].hash|)
    decreases Top(stack), 0
  {
    var table := stack[|stack| - 1];
    tree, log := outTree, [];
    var i := 0;
    while i < |table.hash|
      invariant 0 <= i <= |table.hash|
      invariant tree == HashPass(table, i, outTree) && log == HashLog(table, i)
    {
      var e := table.hash[i];
      assert e in table.hash;
      var s := stack + [e.key, e.value];
      assert s[|s| - 2] == e.key && s[|s| - 1] == e.value && Top(s) == e.value;
      assert PlainKeys(e.value) && (e.key.Str? ==> PlainKey(e.key.s));
      var t', l' := PushNextToPTree(s, tree);
      tree, log := t', log + l';
      i := i + 1;
    }
  }

  /** The loop of `Lua_ToPTree` over the indexed entries 1 .. luaL_len. */
  method ArrayLoop(stack: seq<LuaValue>, sorted: Tree) returns (tree: Tree, log: seq<Diagnostic>)
    requires |stack| >= 1 && stack[|stack| - 1].Table? && PlainKeys(stack[|stack| - 1])
    ensures tree == ArrayPass(stack[|stack| - 1], |stack[|stack| - 1].arrayPart|, sorted)
    ensures log == ArrayLog(stack[|stack| - 1], |stack[|stack| - 1].arrayPart|)
    decreases Top(stack), 0
  {
    var table := stack[|stack| - 1];
    tree, log := sorted, [];
    var len := |table.arrayPart|;
    var k := 1;
    while k <= len
      invariant 1 <= k <= len + 1
      invariant tree == ArrayPass(table, k - 1, sorted) && log == ArrayLog(table, k - 1)
    {
      var w := table.arrayPart[k - 1];
      assert w in table.arrayPart;
      var s := stack + [w];
      assert s[|s| - 1] == w && Top(s) == w && PlainKeys(w);
      var t', l' := PushNextValueInArrayToPTree(s, tree);
      tree, log := t', log + l';
      k := k + 1;
    }
  }

  /** `Lua_PushNextToPTree`, with the key and the value on top of the stack. */
  method PushNextToPTree(stack: seq<LuaValue>, oTree: Tree) returns (tree: Tree, log: seq<Diagnostic>)
    requires |stack| >= 2 && PlainKeys(stack[|stack| - 1])
    requires stack[|stack| - 2].Str? ==> PlainKey(stack[|stack| - 2].s)
    ensures tree == EntryPut(oTree, Entry(stack[|stack| - 2], stack[|stack| - 1]))
    ensures log == EntryLog(Entry(stack[|stack| - 2], stack[|stack| - 1]))
    decreases Top(stack), 3
  {
    var key := stack[|stack| - 2];
    match key
    case Str(s) =>
      tree, log := PushNextValueToPTree(stack, oTree, s);
    case Number(_) =>
      tree, log := oTree, [];
    case _ =>
      tree, log := oTree, [UnhandledKeyType];
  }

  /** `Lua_PushNextValueToPTree`, with the value on top of the stack. */
  method PushNextValueToPTree(stack: seq<LuaValue>, oTree: Tree, key: string) returns (tree: Tree, log: seq<Diagnostic>)
    requires |stack| >= 1 && PlainKeys(stack[|stack| - 1])
    ensures tree == ValuePut(oTree, key, stack[|stack| - 1])
    ensures log == ValueLog(stack[|stack| - 1], UnhandledValueType)
    decreases Top(stack), 2
  {
    tree, log := oTree, [];
    match stack[|stack| - 1]
    case Boolean(b) =>
      tree := PutValue(oTree, key, BoolPutValue(b));
    case Number(n) =>
      tree := PutValue(oTree, key, NumberText(n));
    case Str(s) =>
      tree := PutValue(oTree, key, s);
    case Table(_, _) =>
      var subTree;
      subTree, log := LuaToPTree(stack, EMPTY);
      tree := PutChild(oTree, key, subTree);
    case Unsupported =>
      log := [UnhandledValueType];
  }

  /** `Lua_PushNextValueInArrayToPTree`, with the value on top of the stack. */
  method PushNextValueInArrayToPTree(stack: seq<LuaValue>, oTree: Tree) returns (tree: Tree, log: seq<Diagnostic>)
    requires |stack| >= 1 && PlainKeys(stack[|stack| - 1])
    ensures tree == ArrayPut(oTree, stack[|stack| - 1])
    ensures log == ValueLog(stack[|stack| - 1], UnhandledArrayValueType)
    decreases Top(stack), 2
  {
    tree, log := oTree, [];
    match stack[|stack| - 1]
    case Boolean(b) =>
      tree := PushBack(oTree, Child("", Leaf(BoolPutValue(b))));
    case Number(n) =>
      tree := PushBack(oTree, Child("", Leaf(NumberText(n))));
    case Str(s) =>
      tree := PushBack(oTree, Child("", Leaf(s)));
    case Table(_, _) =>
      var child;
      child, log := LuaToPTree(stack, EMPTY);
      tree := PushBack(oTree, Child("", child));
    case Unsupported =>
      log := [UnhandledArrayValueType];
  }

  // =====================================================================
  // Lua_PushPTreeAsTable: the specification

  /** `lua_settable` on a table: the key's value is replaced in place, or
      the key is added at the end of the hash part. */
  function SetField(hash: seq<Entry>, key: LuaValue, value: LuaValue): (r: seq<Entry>)
    ensures |r| == |hash| || |r| == |hash| + 1
  {
    if hash == [] then [Entry(key, value)]
    else if hash[0].key == key then [Entry(key, value)] + hash[1..]
    else [hash[0]] + SetField(hash[1..], key, value)
  }

  /** The value `Lua_PushPTreeAsValue` pushes: a node with children becomes
      a table (`get_child_optional("")` names the node itself, so its data is
      ignored); a leaf is probed as a boolean, then as a number, and is
      otherwise its raw string. */
  function ValueOf(t: Tree): LuaValue
    decreases t, 2, 0
  {
    if t.children != [] then TableOf(t)
    else if BoolGetValue(t.data).Some? then Boolean(BoolGetValue(t.data).value)
    else if NumberGetValue(t.data).Some? then Number(NumberGetValue(t.data).value)
    else Str(t.data)
  }

  /** The table `Lua_PushPTreeAsTable` pushes for `t`. */
  function TableOf(t: Tree): LuaValue
    decreases t, 1, 0
  {
    FillTable(t, |t.children|)
  }

  /** The table after the first `k` children: an empty-key child goes to
      index rawlen + 1, any other child is set under its key. */
  function FillTable(t: Tree, k: nat): (r: LuaValue)
    requires k <= |t.children|
    ensures r.Table?
    decreases t, 0, k
  {
    if k == 0 then Table([], [])
    else
      var c := t.children[k - 1];
      assert c in t.children;
      var prev := FillTable(t, k - 1);
      if c.key == "" then Table(prev.hash, prev.arrayPart + [ValueOf(c.tree)])
      else Table(SetField(prev.hash, Str(c.key), ValueOf(c.tree)), prev.arrayPart)
  }

  // =====================================================================
  // Lua_PushPTreeAsTable: the methods

  /** `Lua_PushPTreeAsTable`: creates a table on top of the stack and fills
      it child by child. */
  method PushPTreeAsTable(stack: seq<LuaValue>, tree: Tree) returns (stack': seq<LuaValue>)
    ensures stack' == stack + [TableOf(tree)]
    decreases tree, 0
  {
    stack' := stack + [Table([], [])];
    var i := 0;
    while i < |tree.children|
      invariant 0 <= i <= |tree.children|
      invariant stack' == stack + [FillTable(tree, i)]
    {
      var kv := tree.children[i];
      assert kv in tree.children;
      var table := stack'[|stack'| - 1];
      if kv.key == "" {
        // push as array: t[rawlen(t) + 1] = value
        stack' := PushPTreeAsValue(stack', kv.tree);
        var value := stack'[|stack'| - 1];
        stack' := stack + [Table(table.hash, table.arrayPart + [value])];
      } else {
        // push as hash: t[key] = value
        stack' := stack' + [Str(kv.key)];
        stack' := PushPTreeAsValue(stack', kv.tree);
        var value := stack'[|stack'| - 1];
        stack' := stack + [Table(SetField(table.hash, Str(kv.key), value), table.arrayPart)];
      }
      i := i + 1;
    }
  }

  /** `Lua_PushPTreeAsValue`: pushes a node's table or its probed scalar. */
  method PushPTreeAsValue(stack: seq<LuaValue>, tree: Tree) returns (stack': seq<LuaValue>)
    ensures stack' == stack + [ValueOf(tree)]
    decreases tree, 1
  {
    if tree.children != [] {
      stack' := PushPTreeAsTable(stack, tree);
      return;
    }
    var boolOpt := BoolGetValue(tree.data);
    if boolOpt.Some? {
      stack' := stack + [Boolean(boolOpt.value)];
      return;
    }
    var doubleOpt := NumberGetValue(tree.data);
    if doubleOpt.Some? {
      stack' := stack + [Number(doubleOpt.value)];
      return;
    }
    stack' := stack + [Str(tree.data)];
  }
}
