/** Properties of `Lua_ToPTree` (modelled by `ToPTree`/`TableTree`): the
    layout of the tree it builds, the diagnostics it logs, and its
    independence from the order in which `lua_next` visits the keys. */
module LuaUtilsToTree {
  import opened Base
  import opened LuaUtils
  import opened LuaUtilsSort

  // ---------------------------------------------------------------------
  // A reference description of the tree built from a table

  /** The text a scalar is stored as. */
  function ScalarText(w: LuaValue): string
  {
    match w
    case Boolean(b) => BoolPutValue(b)
    case Number(n) => NumberText(n)
    case Str(s) => s
    case _ => ""
  }

  /** The subtree a supported value becomes. */
  function ValueTree(w: LuaValue): Tree
  {
    if w.Table? then TableTree(w, EMPTY) else Leaf(ScalarText(w))
  }

  /** An entry the first pass converts: a string key and a supported value. */
  predicate Converted(e: Entry) { e.key.Str? && !e.value.Unsupported? }

  function NamedChild(e: Entry): Child
    requires e.key.Str?
  {
    Child(e.key.s, ValueTree(e.value))
  }

  /** The children the converted entries become, in visiting order. */
  function NamedChildren(es: seq<Entry>): seq<Child>
  {
    if es == [] then []
    else
      var e := es[|es| - 1];
      NamedChildren(es[..|es| - 1]) + (if Converted(e) then [NamedChild(e)] else [])
  }

  /** The empty-key children the supported array elements become. */
  function ArrayChildren(ws: seq<LuaValue>): seq<Child>
  {
    if ws == [] then []
    else
      var w := ws[|ws| - 1];
      ArrayChildren(ws[..|ws| - 1]) + (if w.Unsupported? then [] else [Child("", ValueTree(w))])
  }

  /** A Lua table never holds one key twice. */
  predicate DistinctKeyed(es: seq<Entry>)
  {
    forall i, j :: 0 <= i < j < |es| ==> es[i].key != es[j].key
  }

  /** `DistinctKeyed` for the table and every table under it. */
  predicate UniqueKeys(v: LuaValue)
  {
    match v
    case Table(hash, arrayPart) =>
      && DistinctKeyed(hash)
      && (forall i :: 0 <= i < |hash| ==> UniqueKeys(hash[i].value))
      && (forall i :: 0 <= i < |arrayPart| ==> UniqueKeys(arrayPart[i]))
    case _ => true
  }

  lemma NamedChildrenSnoc(es: seq<Entry>, e: Entry)
    ensures NamedChildren(es + [e]) == NamedChildren(es) + (if Converted(e) then [NamedChild(e)] else [])
  {
    assert (es + [e])[..|es|] == es;
  }

  lemma ArrayChildrenLast(ws: seq<LuaValue>)
    requires ws != []
    ensures ArrayChildren(ws) == ArrayChildren(ws[..|ws| - 1]) + (if ws[|ws| - 1].Unsupported? then [] else [Child("", ValueTree(ws[|ws| - 1]))])
  {
  }

  lemma ArrayChildrenSnoc(ws: seq<LuaValue>, w: LuaValue)
    ensures ArrayChildren(ws + [w]) == ArrayChildren(ws) + (if w.Unsupported? then [] else [Child("", ValueTree(w))])
  {
    assert (ws + [w])[..|ws|] == ws;
  }

  /** The named children are exactly the converted entries. */
  lemma {:induction false} NamedChildrenMembers(es: seq<Entry>)
    ensures forall c :: c in NamedChildren(es) ==>
      exists i :: 0 <= i < |es| && Converted(es[i]) && c == NamedChild(es[i])
    ensures forall i :: 0 <= i < |es| && Converted(es[i]) ==> NamedChild(es[i]) in NamedChildren(es)
  {
    if es != [] {
      var p, e := es[..|es| - 1], es[|es| - 1];
      NamedChildrenMembers(p);
      assert es == p + [e];
      NamedChildrenSnoc(p, e);
      forall c | c in NamedChildren(es)
        ensures exists i :: 0 <= i < |es| && Converted(es[i]) && c == NamedChild(es[i])
      {
        if c in NamedChildren(p) {
          var i :| 0 <= i < |p| && Converted(p[i]) && c == NamedChild(p[i]);
          assert es[i] == p[i];
        } else {
          assert es[|es| - 1] == e;
        }
      }
      forall i | 0 <= i < |es| && Converted(es[i]) ensures NamedChild(es[i]) in NamedChildren(es) {
        if i < |p| { assert es[i] == p[i]; }
      }
    }
  }

  /** The array children are the supported array elements, in order. */
  lemma {:induction false} ArrayChildrenMembers(ws: seq<LuaValue>)
    ensures forall c :: c in ArrayChildren(ws) ==>
      exists i :: 0 <= i < |ws| && !ws[i].Unsupported? && c == Child("", ValueTree(ws[i]))
  {
    if ws != [] {
      var p, w := ws[..|ws| - 1], ws[|ws| - 1];
      ArrayChildrenMembers(p);
      ArrayChildrenLast(ws);
      forall c | c in ArrayChildren(ws)
        ensures exists i :: 0 <= i < |ws| && !ws[i].Unsupported? && c == Child("", ValueTree(ws[i]))
      {
        if c in ArrayChildren(p) {
          var i :| 0 <= i < |p| && !p[i].Unsupported? && c == Child("", ValueTree(p[i]));
          assert ws[i] == p[i];
        } else {
          assert !w.Unsupported? && c == Child("", ValueTree(w));
          assert ws[|ws| - 1] == w;
        }
      }
    }
  }

  lemma FindKeyAbsent(cs: seq<Child>, key: string)
    requires forall j :: 0 <= j < |cs| ==> cs[j].key != key
    ensures FindKey(cs, key) == |cs|
  {
  }

  /** One visit of the first pass on a key no child has yet. */
  lemma EntryPutFresh(cs: seq<Child>, e: Entry)
    requires e.key.Str? ==> forall j :: 0 <= j < |cs| ==> cs[j].key != e.key.s
    ensures EntryPut(Node("", cs), e) == Node("", cs + (if Converted(e) then [NamedChild(e)] else []))
  {
    if e.key.Str? {
      FindKeyAbsent(cs, e.key.s);
      match e.value
      case Boolean(b) =>
      case Number(n) =>
      case Str(x) =>
      case Table(_, _) =>
      case Unsupported =>
    }
  }

  /** With distinct keys, every `put` of the first pass adds a new child. */
  lemma {:induction false} HashPassFromEmpty(v: LuaValue, k: nat)
    requires v.Table? && k <= |v.hash| && DistinctKeyed(v.hash)
    ensures HashPass(v, k, EMPTY) == Node("", NamedChildren(v.hash[..k]))
  {
    if k > 0 {
      HashPassFromEmpty(v, k - 1);
      var p, e := v.hash[..k - 1], v.hash[k - 1];
      assert v.hash[..k] == p + [e];
      NamedChildrenSnoc(p, e);
      var cs := NamedChildren(p);
      if e.key.Str? {
        NamedChildrenMembers(p);
        forall j | 0 <= j < |cs| ensures cs[j].key != e.key.s {
          assert cs[j] in cs;
          var i :| 0 <= i < |p| && Converted(p[i]) && cs[j] == NamedChild(p[i]);
          assert p[i] == v.hash[i];
        }
      }
      EntryPutFresh(cs, e);
    }
  }

  /** The second pass appends the array children. */
  lemma {:induction false} ArrayPassAppends(v: LuaValue, k: nat, t: Tree)
    requires v.Table? && k <= |v.arrayPart|
    ensures ArrayPass(v, k, t) == t.(children := t.children + ArrayChildren(v.arrayPart[..k]))
  {
    if k > 0 {
      ArrayPassAppends(v, k - 1, t);
      var w := v.arrayPart[k - 1];
      var prev := ArrayPass(v, k - 1, t);
      ArrayPassStep(v, k, t);
      ArrayPutAppends(prev, w);
      ArrayChildrenPrefix(v.arrayPart, k);
      ChildrenExtend(t, prev, ArrayChildren(v.arrayPart[..k - 1]), if w.Unsupported? then [] else [Child("", ValueTree(w))]);
    }
  }

  lemma ArrayPassStep(v: LuaValue, k: nat, t: Tree)
    requires v.Table? && 0 < k <= |v.arrayPart|
    ensures ArrayPass(v, k, t) == ArrayPut(ArrayPass(v, k - 1, t), v.arrayPart[k - 1])
  {
  }

  lemma ArrayChildrenPrefix(ws: seq<LuaValue>, k: nat)
    requires 0 < k <= |ws|
    ensures ArrayChildren(ws[..k]) == ArrayChildren(ws[..k - 1]) + (if ws[k - 1].Unsupported? then [] else [Child("", ValueTree(ws[k - 1]))])
  {
    assert ws[..k] == ws[..k - 1] + [ws[k - 1]];
    ArrayChildrenSnoc(ws[..k - 1], ws[k - 1]);
  }

  lemma ChildrenExtend(t: Tree, prev: Tree, a: seq<Child>, b: seq<Child>)
    requires prev == t.(children := t.children + a)
    ensures prev.(children := prev.children + b) == t.(children := t.children + (a + b))
  {
    AppendAssoc(t.children, a, b);
  }

  /** One element of the second pass: a supported value is pushed back
      under "" as its subtree. */
  lemma ArrayPutAppends(t: Tree, w: LuaValue)
    ensures ArrayPut(t, w) == t.(children := t.children + (if w.Unsupported? then [] else [Child("", ValueTree(w))]))
  {
  }

  /** The tree built from a table: the converted entries sorted by key, then
      the array elements in index order. */
  lemma TableLayout(v: LuaValue)
    requires v.Table? && DistinctKeyed(v.hash)
    ensures TableTree(v, EMPTY) == Node("", SortByKey(NamedChildren(v.hash)) + ArrayChildren(v.arrayPart))
  {
    HashPassFromEmpty(v, |v.hash|);
    assert v.hash[..|v.hash|] == v.hash;
    ArrayPassAppends(v, |v.arrayPart|, Sorted(HashPass(v, |v.hash|, EMPTY)));
    assert v.arrayPart[..|v.arrayPart|] == v.arrayPart;
  }

  lemma {:induction false} NamedChildrenDistinct(es: seq<Entry>)
    requires DistinctKeyed(es)
    ensures DistinctKeys(NamedChildren(es))
  {
    if es != [] {
      var p, e := es[..|es| - 1], es[|es| - 1];
      NamedChildrenDistinct(p);
      NamedChildrenSnoc(p, e);
      NamedChildrenMembers(p);
      if Converted(e) {
        var cs := NamedChildren(p);
        forall i | 0 <= i < |cs| ensures cs[i].key != e.key.s {
          assert cs[i] in cs;
          var j :| 0 <= j < |p| && Converted(p[j]) && cs[i] == NamedChild(p[j]);
          assert p[j] == es[j];
        }
      }
    }
  }

  lemma SortedNamedMembers(h: seq<Entry>)
    ensures var named := SortByKey(NamedChildren(h));
      && (forall i :: 0 <= i < |h| && Converted(h[i]) ==> NamedChild(h[i]) in named)
      && (forall c :: c in named ==> exists i :: 0 <= i < |h| && Converted(h[i]) && c == NamedChild(h[i]))
  {
    var named := SortByKey(NamedChildren(h));
    assert multiset(named) == multiset(NamedChildren(h));
    NamedChildrenMembers(h);
    forall i | 0 <= i < |h| && Converted(h[i]) ensures NamedChild(h[i]) in named {
      assert NamedChild(h[i]) in multiset(NamedChildren(h));
    }
    forall c | c in named ensures exists i :: 0 <= i < |h| && Converted(h[i]) && c == NamedChild(h[i]) {
      assert c in multiset(named);
      assert c in NamedChildren(h);
    }
  }

  /** The converted entries, sorted: in key order, one per key, and exactly
      the converted entries. */
  lemma SortedNamedChildren(h: seq<Entry>)
    requires DistinctKeyed(h)
    ensures var named := SortByKey(NamedChildren(h));
      && |named| == |NamedChildren(h)|
      && KeySorted(named) && DistinctKeys(named)
      && (forall i :: 0 <= i < |h| && Converted(h[i]) ==> NamedChild(h[i]) in named)
      && (forall c :: c in named ==> exists i :: 0 <= i < |h| && Converted(h[i]) && c == NamedChild(h[i]))
  {
    SortByKeySorted(NamedChildren(h));
    NamedChildrenDistinct(h);
    SortByKeyDistinct(NamedChildren(h));
    SortedNamedMembers(h);
  }

  /** The shape of the tree built from a table with plain string keys: no
      data at the root; first one child per converted entry, in key order;
      then one empty-key child per supported array element. */
  lemma TableTreeShape(v: LuaValue)
    requires v.Table? && DistinctKeyed(v.hash) && PlainKeys(v)
    ensures var r := TableTree(v, EMPTY); var n := |NamedChildren(v.hash)|;
      && r.data == "" && n <= |r.children|
      && KeySorted(r.children[..n]) && DistinctKeys(r.children[..n])
      && (forall i :: 0 <= i < |v.hash| && Converted(v.hash[i]) ==> NamedChild(v.hash[i]) in r.children[..n])
      && (forall i :: 0 <= i < n ==> PlainKey(r.children[i].key))
      && r.children[n..] == ArrayChildren(v.arrayPart)
      && (forall i :: n <= i < |r.children| ==> r.children[i].key == "")
  {
    TableLayout(v);
    var r := TableTree(v, EMPTY);
    var named := SortByKey(NamedChildren(v.hash));
    var n := |NamedChildren(v.hash)|;
    SortedNamedChildren(v.hash);
    assert r.children[..n] == named && r.children[n..] == ArrayChildren(v.arrayPart);
    forall i | 0 <= i < n ensures PlainKey(r.children[i].key) {
      assert named[i] in named;
      var j :| 0 <= j < |v.hash| && Converted(v.hash[j]) && named[i] == NamedChild(v.hash[j]);
    }
    ArrayChildrenMembers(v.arrayPart);
    forall i | n <= i < |r.children| ensures r.children[i].key == "" {
      assert r.children[i] in ArrayChildren(v.arrayPart);
    }
  }

  // ---------------------------------------------------------------------
  // No node holds both data and children

  predicate Exclusive(t: Tree)
  {
    && (t.data == "" || t.children == [])
    && forall i :: 0 <= i < |t.children| ==> Exclusive(t.children[i].tree)
  }

  /** Where a child of the tree built from a table comes from: a converted
      entry (`inHash`) or an element of the array part, at index `j`. */
  lemma ChildOrigin(v: LuaValue, i: nat) returns (inHash: bool, j: nat)
    requires v.Table? && DistinctKeyed(v.hash) && i < |TableTree(v, EMPTY).children|
    ensures inHash ==> j < |v.hash| && TableTree(v, EMPTY).children[i].tree == ValueTree(v.hash[j].value)
    ensures !inHash ==> j < |v.arrayPart| && TableTree(v, EMPTY).children[i].tree == ValueTree(v.arrayPart[j])
  {
    TableLayout(v);
    var named := SortByKey(NamedChildren(v.hash));
    var c := TableTree(v, EMPTY).children[i];
    if i < |named| {
      SortedNamedChildren(v.hash);
      assert c == named[i] && c in named;
      inHash := true;
      j :| 0 <= j < |v.hash| && Converted(v.hash[j]) && c == NamedChild(v.hash[j]);
    } else {
      ArrayChildrenMembers(v.arrayPart);
      assert c in ArrayChildren(v.arrayPart);
      inHash := false;
      j :| 0 <= j < |v.arrayPart| && !v.arrayPart[j].Unsupported? && c == Child("", ValueTree(v.arrayPart[j]));
    }
  }

  /** A table without duplicate keys becomes a tree in which no node has
      both data and children. */
  lemma {:induction false} TableExclusive(v: LuaValue)
    requires v.Table? && UniqueKeys(v)
    ensures Exclusive(TableTree(v, EMPTY))
    decreases v, 1
  {
    TableLayout(v);
    var r := TableTree(v, EMPTY);
    forall i | 0 <= i < |r.children| ensures Exclusive(r.children[i].tree) {
      var inHash, j := ChildOrigin(v, i);
      if inHash {
        assert v.hash[j] in v.hash;
        ValueExclusive(v.hash[j].value);
      } else {
        ValueExclusive(v.arrayPart[j]);
      }
    }
  }

  lemma {:induction false} ValueExclusive(w: LuaValue)
    requires UniqueKeys(w)
    ensures Exclusive(ValueTree(w))
    decreases w, 2
  {
    if w.Table? { TableExclusive(w); }
  }

  // ---------------------------------------------------------------------
  // The outcome and the log

  lemma EntryPutKeepsData(t: Tree, e: Entry)
    ensures EntryPut(t, e).data == t.data
  {
    if e.key.Str? {
      var i := FindKey(t.children, e.key.s);
      match e.value
      case Boolean(b) =>
      case Number(n) =>
      case Str(x) =>
      case Table(_, _) =>
      case Unsupported =>
    }
  }

  /** The passes add children under the root and never touch its data. */
  lemma {:induction false} PassesKeepData(v: LuaValue, k: nat, t: Tree)
    requires v.Table?
    ensures k <= |v.hash| ==> HashPass(v, k, t).data == t.data
    ensures k <= |v.arrayPart| ==> ArrayPass(v, k, t).data == t.data
  {
    if k > 0 {
      PassesKeepData(v, k - 1, t);
      if k <= |v.hash| {
        EntryPutKeepsData(HashPass(v, k - 1, t), v.hash[k - 1]);
      }
    }
  }

  predicate IsWarning(d: Diagnostic) { !d.NoArgument? && !d.NotATable? }

  lemma {:induction false} TableLogWarnings(v: LuaValue)
    requires v.Table?
    ensures forall d :: d in TableLog(v) ==> IsWarning(d)
    decreases v, 1, 0
  {
    HashLogWarnings(v, |v.hash|);
    ArrayLogWarnings(v, |v.arrayPart|);
  }

  lemma {:induction false} HashLogWarnings(v: LuaValue, k: nat)
    requires v.Table? && k <= |v.hash|
    ensures forall d :: d in HashLog(v, k) ==> IsWarning(d)
    decreases v, 0, k
  {
    if k > 0 {
      HashLogWarnings(v, k - 1);
      var e := v.hash[k - 1];
      assert e in v.hash;
      if e.key.Str? { ValueLogWarnings(e.value, UnhandledValueType); }
    }
  }

  lemma {:induction false} ArrayLogWarnings(v: LuaValue, k: nat)
    requires v.Table? && k <= |v.arrayPart|
    ensures forall d :: d in ArrayLog(v, k) ==> IsWarning(d)
    decreases v, 0, k
  {
    if k > 0 {
      ArrayLogWarnings(v, k - 1);
      assert v.arrayPart[k - 1] in v.arrayPart;
      ValueLogWarnings(v.arrayPart[k - 1], UnhandledArrayValueType);
    }
  }

  lemma {:induction false} ValueLogWarnings(w: LuaValue, unhandled: Diagnostic)
    requires IsWarning(unhandled)
    ensures forall d :: d in ValueLog(w, unhandled) ==> IsWarning(d)
    decreases w, 2, 0
  {
    if w.Table? { TableLogWarnings(w); }
  }

  /** An empty stack and a non-table are errors that leave the tree alone;
      a table leaves the root's data as it was and logs warnings only. */
  lemma ToPTreeOutcome(stack: seq<LuaValue>, outTree: Tree)
    ensures ToPTreeLog(stack) == [NoArgument] <==> |stack| == 0
    ensures ToPTreeLog(stack) == [NotATable] <==> |stack| > 0 && !stack[|stack| - 1].Table?
    ensures (|stack| == 0 || !stack[|stack| - 1].Table?) ==> ToPTree(stack, outTree) == outTree
    ensures ToPTree(stack, outTree).data == outTree.data
  {
    if |stack| > 0 && stack[|stack| - 1].Table? {
      var v := stack[|stack| - 1];
      TableLogWarnings(v);
      if TableLog(v) == [NoArgument] || TableLog(v) == [NotATable] {
        assert TableLog(v)[0] in TableLog(v);
      }
      PassesKeepData(v, |v.hash|, EMPTY);
      var h := HashPass(v, |v.hash|, outTree);
      PassesKeepData(v, |v.hash|, outTree);
      PassesKeepData(v, |v.arrayPart|, Sorted(h));
    }
  }

  lemma {:induction false} HashLogHolds(v: LuaValue, i: nat, k: nat)
    requires v.Table? && i < k <= |v.hash|
    ensures forall d :: d in EntryLog(v.hash[i]) ==> d in HashLog(v, k)
  {
    if i < k - 1 { HashLogHolds(v, i, k - 1); }
  }

  lemma {:induction false} ArrayLogHolds(v: LuaValue, i: nat, k: nat)
    requires v.Table? && i < k <= |v.arrayPart|
    ensures forall d :: d in ValueLog(v.arrayPart[i], UnhandledArrayValueType) ==> d in ArrayLog(v, k)
  {
    if i < k - 1 { ArrayLogHolds(v, i, k - 1); }
  }

  /** Every entry the conversion skips is reported: a key neither string
      nor number, an unsupported value under a string key, and an
      unsupported element of the array part. */
  lemma SkippedAreWarned(v: LuaValue)
    requires v.Table?
    ensures forall i :: 0 <= i < |v.hash| && !v.hash[i].key.Str? && !v.hash[i].key.Number? ==>
      UnhandledKeyType in TableLog(v)
    ensures forall i :: 0 <= i < |v.hash| && v.hash[i].key.Str? && v.hash[i].value.Unsupported? ==>
      UnhandledValueType in TableLog(v)
    ensures forall i :: 0 <= i < |v.arrayPart| && v.arrayPart[i].Unsupported? ==>
      UnhandledArrayValueType in TableLog(v)
  {
    forall i | 0 <= i < |v.hash| && !v.hash[i].key.Str? && !v.hash[i].key.Number?
      ensures UnhandledKeyType in TableLog(v)
    {
      HashLogHolds(v, i, |v.hash|);
      assert EntryLog(v.hash[i]) == [UnhandledKeyType];
    }
    forall i | 0 <= i < |v.hash| && v.hash[i].key.Str? && v.hash[i].value.Unsupported?
      ensures UnhandledValueType in TableLog(v)
    {
      HashLogHolds(v, i, |v.hash|);
      assert EntryLog(v.hash[i]) == [UnhandledValueType];
    }
    forall i | 0 <= i < |v.arrayPart| && v.arrayPart[i].Unsupported?
      ensures UnhandledArrayValueType in TableLog(v)
    {
      ArrayLogHolds(v, i, |v.arrayPart|);
      assert ValueLog(v.arrayPart[i], UnhandledArrayValueType) == [UnhandledArrayValueType];
    }
  }

  // ---------------------------------------------------------------------
  // Independence from the visiting order of lua_next

  lemma {:induction false} NamedChildrenAppend(a: seq<Entry>, b: seq<Entry>)
    ensures NamedChildren(a + b) == NamedChildren(a) + NamedChildren(b)
    decreases |b|
  {
    if b != [] {
      var p, e := b[..|b| - 1], b[|b| - 1];
      assert a + b == (a + p) + [e] && b == p + [e];
      NamedChildrenAppend(a, p);
      NamedChildrenSnoc(a + p, e);
      NamedChildrenSnoc(p, e);
    } else {
      assert a + b == a;
    }
  }

  lemma {:induction false} NamedChildrenPermutation(a: seq<Entry>, b: seq<Entry>)
    requires multiset(a) == multiset(b)
    ensures multiset(NamedChildren(a)) == multiset(NamedChildren(b))
    decreases |a|
  {
    if a == [] {
      assert |multiset(b)| == 0;
    } else {
      var p, e := a[..|a| - 1], a[|a| - 1];
      assert a == p + [e];
      assert e in multiset(b);
      var j :| 0 <= j < |b| && b[j] == e;
      RemoveAtMultiset(b, j);
      NamedChildrenPermutation(p, b[..j] + b[j + 1..]);
      NamedChildrenAppend(p, [e]);
      NamedChildrenRemoveAt(b, j);
    }
  }

  lemma RemoveAtMultiset(b: seq<Entry>, j: nat)
    requires j < |b|
    ensures multiset(b[..j] + b[j + 1..]) == multiset(b) - multiset{b[j]}
  {
    SplitAt(b, j);
    MultisetShuffle(b[..j], [b[j]], b[j + 1..]);
  }

  /** Taking out entry `j` takes out its converted child. */
  lemma NamedChildrenRemoveAt(b: seq<Entry>, j: nat)
    requires j < |b|
    ensures multiset(NamedChildren(b)) == multiset(NamedChildren(b[..j] + b[j + 1..])) + multiset(NamedChildren([b[j]]))
  {
    var x, e, y := b[..j], b[j], b[j + 1..];
    SplitAt(b, j);
    NamedChildrenAppend(x, [e]);
    NamedChildrenAppend(x + [e], y);
    NamedChildrenAppend(x, y);
    MultisetShuffle(NamedChildren(x), NamedChildren([e]), NamedChildren(y));
  }

  /** Two tables with the same entries and the same array part give the
      same tree, whatever order `lua_next` visits the entries in. */
  lemma HashOrderIrrelevant(v1: LuaValue, v2: LuaValue)
    requires v1.Table? && v2.Table? && DistinctKeyed(v1.hash) && DistinctKeyed(v2.hash)
    requires multiset(v1.hash) == multiset(v2.hash) && v1.arrayPart == v2.arrayPart
    ensures TableTree(v1, EMPTY) == TableTree(v2, EMPTY)
  {
    TableLayout(v1);
    TableLayout(v2);
    NamedChildrenPermutation(v1.hash, v2.hash);
    NamedChildrenDistinct(v1.hash);
    SortByKeyOrderIrrelevant(NamedChildren(v1.hash), NamedChildren(v2.hash));
  }
}
