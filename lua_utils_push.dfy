/** Properties of `Lua_PushPTreeAsTable` (modelled by `TableOf`/`ValueOf`):
    how leaves are probed, where each child lands in the table, and the
    round trip tree -> table -> tree. */
module LuaUtilsPush {
  import opened Base
  import opened LuaUtils
  import opened LuaUtilsSort
  import opened LuaUtilsToTree

  // ---------------------------------------------------------------------
  // BoolTranslator and the probing of leaves

  /** `put_value` then `get_value` gives the boolean back. */
  lemma BoolTranslatorRoundTrip(b: bool)
    ensures BoolGetValue(BoolPutValue(b)) == Some(b)
  {
    if b {
      assert IEquals("true", "true");
    } else {
      assert IEquals("false", "false");
      assert !IEquals("false", "true");
    }
  }

  /** `get_value` accepts exactly "true" and "false" in any letter case. */
  lemma BoolGetValueMeaning(s: string)
    ensures BoolGetValue(s) == Some(true) <==> IEquals(s, "true")
    ensures BoolGetValue(s) == Some(false) <==> IEquals(s, "false")
    ensures BoolGetValue(s).None? <==> !IEquals(s, "true") && !IEquals(s, "false")
  {
    if IEquals(s, "true") { assert |s| == 4 && s != []; }
    if IEquals(s, "false") { assert |s| == 5 && s != []; }
  }

  /** A node with children is pushed as a table; a leaf is a boolean if it
      reads as one, else a number if it reads as one, else its string. */
  lemma ValueOfCases(t: Tree)
    ensures ValueOf(t).Table? <==> t.children != []
    ensures ValueOf(t).Boolean? <==> t.children == [] && BoolGetValue(t.data).Some?
    ensures ValueOf(t).Number? <==> t.children == [] && BoolGetValue(t.data).None? && NumberGetValue(t.data).Some?
    ensures ValueOf(t).Str? <==> t.children == [] && BoolGetValue(t.data).None? && NumberGetValue(t.data).None?
    ensures ValueOf(t).Boolean? ==> Some(ValueOf(t).b) == BoolGetValue(t.data)
    ensures ValueOf(t).Number? ==> Some(ValueOf(t).n) == NumberGetValue(t.data)
    ensures ValueOf(t).Str? ==> ValueOf(t).s == t.data
    ensures !ValueOf(t).Unsupported?
  {
  }

  lemma ParseFortyTwo()
    ensures ParseInt("42") == Some(42) && ParseInt("-7") == Some(-7)
  {
    assert "42"[..1] == "4" && "4"[..0] == "" && "7"[..0] == "";
    assert DigitsValue("4") == 4;
    assert DigitsValue("42") == 42;
    assert "-7"[1..] == "7" && DigitsValue("7") == 7;
  }

  /** Worked probes: letter case does not matter for booleans, digits make
      a number, anything else stays a string. */
  lemma ProbeExamples()
    ensures ValueOf(Leaf("TrUe")) == Boolean(true)
    ensures ValueOf(Leaf("FALSE")) == Boolean(false)
    ensures ValueOf(Leaf("42")) == Number(42)
    ensures ValueOf(Leaf("-7")) == Number(-7)
    ensures ValueOf(Leaf("abc")) == Str("abc")
    ensures ValueOf(Leaf("")) == Str("")
  {
    assert IEquals("TrUe", "true");
    assert IEquals("FALSE", "false");
    assert !IEquals("FALSE", "true");
    assert !IEquals("42", "true") && !IEquals("42", "false");
    assert !IEquals("-7", "true") && !IEquals("-7", "false");
    assert !IEquals("abc", "true") && !IEquals("abc", "false");
    assert !IsDigit('a') && "abc"[0] == 'a';
    ParseFortyTwo();
  }

  /** The text of a number never reads as a boolean. */
  lemma NumberTextIsNoBool(n: int)
    ensures BoolGetValue(NumberText(n)).None?
  {
    IntTextFirst(n);
    var s := NumberText(n);
    assert Upper(s[0]) == s[0];
    assert Upper("true"[0]) == 'T' && Upper("false"[0]) == 'F';
  }

  /** A scalar stored as text and probed back is the same scalar, unless it
      is a string that itself reads as a boolean or a number. */
  lemma ScalarRoundTrip(w: LuaValue)
    requires w.Boolean? || w.Number? || (w.Str? && BoolGetValue(w.s).None? && NumberGetValue(w.s).None?)
    ensures ValueOf(Leaf(ScalarText(w))) == w
  {
    match w
    case Boolean(b) => BoolTranslatorRoundTrip(b);
    case Number(n) => NumberTextIsNoBool(n); IntTextRoundTrip(n);
    case Str(_) =>
  }

  // ---------------------------------------------------------------------
  // Where each child lands in the table

  /** Looks a key up in the hash part. */
  function Lookup(hash: seq<Entry>, key: LuaValue): Option<LuaValue>
  {
    if hash == [] then None
    else if hash[0].key == key then Some(hash[0].value)
    else Lookup(hash[1..], key)
  }

  /** The pushed values of a list of children. */
  function Values(cs: seq<Child>): (r: seq<LuaValue>)
    ensures |r| == |cs| && forall i :: 0 <= i < |cs| ==> r[i] == ValueOf(cs[i].tree)
  {
    seq(|cs|, i requires 0 <= i < |cs| => ValueOf(cs[i].tree))
  }

  /** The value of the last child under `k`: the one whose `lua_settable`
      comes last. */
  function LastValue(cs: seq<Child>, k: string): Option<LuaValue>
  {
    var w := WithKey(cs, k);
    if w == [] then None else Some(ValueOf(w[|w| - 1].tree))
  }

  /** Every key of the hash part is a non-empty string. */
  predicate NamedKeys(hash: seq<Entry>)
  {
    forall i :: 0 <= i < |hash| ==> hash[i].key.Str? && hash[i].key.s != ""
  }

  lemma {:induction false} SetFieldLookup(hash: seq<Entry>, key: LuaValue, value: LuaValue, other: LuaValue)
    ensures Lookup(SetField(hash, key, value), other) == if other == key then Some(value) else Lookup(hash, other)
  {
    if hash != [] && hash[0].key != key {
      SetFieldLookup(hash[1..], key, value, other);
    }
  }

  lemma {:induction false} SetFieldKeys(hash: seq<Entry>, key: LuaValue, value: LuaValue)
    ensures forall i :: 0 <= i < |SetField(hash, key, value)| ==>
      SetField(hash, key, value)[i].key == key || exists j :: 0 <= j < |hash| && hash[j].key == SetField(hash, key, value)[i].key
  {
    if hash != [] && hash[0].key != key {
      SetFieldKeys(hash[1..], key, value);
      var r := SetField(hash, key, value);
      forall i | 0 <= i < |r| ensures r[i].key == key || exists j :: 0 <= j < |hash| && hash[j].key == r[i].key {
        if i > 0 {
          assert r[i] == SetField(hash[1..], key, value)[i - 1];
          if r[i].key != key {
            var j :| 0 <= j < |hash[1..]| && hash[1..][j].key == r[i].key;
            assert hash[j + 1].key == r[i].key;
          }
        }
      }
    }
  }

  /** `lua_settable` keeps the keys distinct. */
  lemma {:induction false} SetFieldDistinct(hash: seq<Entry>, key: LuaValue, value: LuaValue)
    requires DistinctKeyed(hash)
    ensures DistinctKeyed(SetField(hash, key, value))
  {
    if hash != [] && hash[0].key != key {
      SetFieldDistinct(hash[1..], key, value);
      SetFieldKeys(hash[1..], key, value);
      var rest := SetField(hash[1..], key, value);
      var r := [hash[0]] + rest;
      assert r == SetField(hash, key, value);
      forall i, j | 0 <= i < j < |r| ensures r[i].key != r[j].key {
        assert r[j] == rest[j - 1];
        if i == 0 {
          if rest[j - 1].key != key {
            var m :| 0 <= m < |hash[1..]| && hash[1..][m].key == rest[j - 1].key;
            assert hash[m + 1].key == r[j].key;
          }
        } else {
          assert r[i] == rest[i - 1];
        }
      }
    }
  }

  /** A key the hash part does not hold yet is added at the end. */
  lemma {:induction false} SetFieldAbsent(hash: seq<Entry>, key: LuaValue, value: LuaValue)
    requires Lookup(hash, key).None?
    ensures SetField(hash, key, value) == hash + [Entry(key, value)]
  {
    if hash != [] {
      SetFieldAbsent(hash[1..], key, value);
      assert hash == [hash[0]] + hash[1..];
    }
  }

  lemma {:induction false} LookupKeys(hash: seq<Entry>, key: LuaValue)
    requires NamedKeys(hash) && !(key.Str? && key.s != "")
    ensures Lookup(hash, key).None?
  {
    if hash != [] { LookupKeys(hash[1..], key); }
  }

  lemma WithKeyNone(cs: seq<Child>, k: string)
    requires forall i :: 0 <= i < |cs| ==> cs[i].key != k
    ensures WithKey(cs, k) == []
  {
    if cs != [] { WithKeyNone(cs[..|cs| - 1], k); }
  }

  /** The empty-key children fill the array part, in order. */
  lemma {:induction false} FillTableArray(t: Tree, n: nat)
    requires n <= |t.children|
    ensures FillTable(t, n).arrayPart == Values(WithKey(t.children[..n], ""))
  {
    if n > 0 {
      FillTableArray(t, n - 1);
      var c := t.children[n - 1];
      FillTableArrayStep(t, n);
      WithKeyPrefix(t.children, n, "");
      if c.key == "" {
        ValuesSnoc(WithKey(t.children[..n - 1], ""), c);
      }
    }
  }

  lemma FillTableArrayStep(t: Tree, n: nat)
    requires 0 < n <= |t.children|
    ensures FillTable(t, n).arrayPart
         == FillTable(t, n - 1).arrayPart + (if t.children[n - 1].key == "" then [ValueOf(t.children[n - 1].tree)] else [])
  {
  }

  lemma WithKeyPrefix(cs: seq<Child>, n: nat, k: string)
    requires 0 < n <= |cs|
    ensures WithKey(cs[..n], k) == WithKey(cs[..n - 1], k) + (if cs[n - 1].key == k then [cs[n - 1]] else [])
  {
    assert cs[..n] == cs[..n - 1] + [cs[n - 1]];
    WithKeySnoc(cs[..n - 1], cs[n - 1], k);
  }

  lemma ValuesSnoc(cs: seq<Child>, c: Child)
    ensures Values(cs + [c]) == Values(cs) + [ValueOf(c.tree)]
  {
  }

  /** The hash part holds distinct, non-empty string keys. */
  lemma {:induction false} FillTableKeys(t: Tree, n: nat)
    requires n <= |t.children|
    ensures NamedKeys(FillTable(t, n).hash) && DistinctKeyed(FillTable(t, n).hash)
  {
    if n > 0 {
      FillTableKeys(t, n - 1);
      var c := t.children[n - 1];
      var p := FillTable(t, n - 1);
      if c.key != "" {
        SetFieldKeys(p.hash, Str(c.key), ValueOf(c.tree));
        SetFieldDistinct(p.hash, Str(c.key), ValueOf(c.tree));
      }
    }
  }

  /** Each non-empty key maps to the value of its last child. */
  lemma {:induction false} FillTableLookup(t: Tree, n: nat, k: string)
    requires n <= |t.children| && k != ""
    ensures Lookup(FillTable(t, n).hash, Str(k)) == LastValue(t.children[..n], k)
  {
    if n > 0 {
      FillTableLookup(t, n - 1, k);
      var prev, c := t.children[..n - 1], t.children[n - 1];
      assert t.children[..n] == prev + [c];
      WithKeySnoc(prev, c, k);
      var p := FillTable(t, n - 1);
      if c.key != "" {
        SetFieldLookup(p.hash, Str(c.key), ValueOf(c.tree), Str(k));
      }
    }
  }

  /** The table pushed for a tree: the empty-key children, in order, make
      the array part t[1..n]; every other key maps to the value of the last
      child under it; nothing else is in the hash part. */
  lemma TableOfShape(t: Tree)
    ensures var r := TableOf(t);
      && r.Table?
      && |r.arrayPart| == |WithKey(t.children, "")|
      && (forall i :: 0 <= i < |r.arrayPart| ==> r.arrayPart[i] == ValueOf(WithKey(t.children, "")[i].tree))
      && (forall k :: k != "" ==> Lookup(r.hash, Str(k)) == LastValue(t.children, k))
      && (forall key: LuaValue :: !(key.Str? && key.s != "") ==> Lookup(r.hash, key).None?)
      && DistinctKeyed(r.hash)
  {
    var n := |t.children|;
    assert t.children[..n] == t.children;
    FillTableArray(t, n);
    FillTableKeys(t, n);
    forall k | k != "" ensures Lookup(TableOf(t).hash, Str(k)) == LastValue(t.children, k) {
      FillTableLookup(t, n, k);
    }
    forall key: LuaValue | !(key.Str? && key.s != "") ensures Lookup(TableOf(t).hash, key).None? {
      LookupKeys(TableOf(t).hash, key);
    }
  }

  /** The root's own data plays no part in the table. */
  lemma {:induction false} FillTableIgnoresData(t: Tree, u: Tree, k: nat)
    requires t.children == u.children && k <= |t.children|
    ensures FillTable(t, k) == FillTable(u, k)
  {
    if k > 0 { FillTableIgnoresData(t, u, k - 1); }
  }

  lemma TableOfIgnoresData(t: Tree, d: string)
    ensures TableOf(t) == TableOf(t.(data := d))
  {
    FillTableIgnoresData(t, t.(data := d), |t.children|);
  }

  // ---------------------------------------------------------------------
  // Round trip: tree -> table -> tree

  /** Two children under the same non-empty key would collapse into one
      table field. */
  predicate DistinctNamedKeys(cs: seq<Child>)
  {
    forall i, j :: 0 <= i < j < |cs| && cs[i].key != "" ==> cs[i].key != cs[j].key
  }

  /** A tree whose keys survive the trip: distinct non-empty keys under
      each node, and no '.' in any key. */
  predicate WellKeyed(t: Tree)
  {
    && DistinctNamedKeys(t.children)
    && forall i :: 0 <= i < |t.children| ==> '.' !in t.children[i].key && WellKeyed(t.children[i].tree)
  }

  /** The tree the round trip gives: a leaf's text normalised by probing it;
      a node's keyed children sorted by key, then its empty-key children in
      order; no data at inner nodes. */
  function Canon(t: Tree): Tree
    decreases t, 2, 0
  {
    if t.children == [] then Leaf(ScalarText(ValueOf(t))) else CanonTable(t)
  }

  function CanonTable(t: Tree): Tree
    decreases t, 1, 0
  {
    Node("", SortByKey(CanonNamed(t, |t.children|)) + CanonArray(t, |t.children|))
  }

  function CanonNamed(t: Tree, k: nat): seq<Child>
    requires k <= |t.children|
    decreases t, 0, k
  {
    if k == 0 then []
    else
      var c := t.children[k - 1];
      assert c in t.children;
      CanonNamed(t, k - 1) + (if c.key != "" then [Child(c.key, Canon(c.tree))] else [])
  }

  function CanonArray(t: Tree, k: nat): seq<Child>
    requires k <= |t.children|
    decreases t, 0, k
  {
    if k == 0 then []
    else
      var c := t.children[k - 1];
      assert c in t.children;
      CanonArray(t, k - 1) + (if c.key == "" then [Child("", Canon(c.tree))] else [])
  }

  /** The hash part the keyed children make when their keys are distinct. */
  function NamedEntries(cs: seq<Child>): seq<Entry>
  {
    if cs == [] then []
    else
      var c := cs[|cs| - 1];
      NamedEntries(cs[..|cs| - 1]) + (if c.key != "" then [Entry(Str(c.key), ValueOf(c.tree))] else [])
  }

  lemma {:induction false} FillTableDistinct(t: Tree, n: nat)
    requires n <= |t.children| && DistinctNamedKeys(t.children)
    ensures FillTable(t, n).hash == NamedEntries(t.children[..n])
  {
    if n > 0 {
      FillTableDistinct(t, n - 1);
      var prev, c := t.children[..n - 1], t.children[n - 1];
      assert t.children[..n] == prev + [c] && (prev + [c])[..n - 1] == prev;
      if c.key != "" {
        FillTableLookup(t, n - 1, c.key);
        WithKeyNone(prev, c.key);
        SetFieldAbsent(FillTable(t, n - 1).hash, Str(c.key), ValueOf(c.tree));
      }
    }
  }

  lemma NamedEntriesSnoc(cs: seq<Child>, c: Child)
    ensures NamedEntries(cs + [c]) == NamedEntries(cs) + (if c.key != "" then [Entry(Str(c.key), ValueOf(c.tree))] else [])
  {
    assert (cs + [c])[..|cs|] == cs;
  }

  lemma {:induction false} NamedRoundTrip(t: Tree, k: nat)
    requires WellKeyed(t) && k <= |t.children|
    ensures NamedChildren(NamedEntries(t.children[..k])) == CanonNamed(t, k)
    decreases t, 0, k
  {
    if k > 0 {
      NamedRoundTrip(t, k - 1);
      var prev, c := t.children[..k - 1], t.children[k - 1];
      assert t.children[..k] == prev + [c];
      NamedEntriesSnoc(prev, c);
      assert c in t.children;
      if c.key != "" {
        assert WellKeyed(c.tree);
        ValueRoundTrip(c.tree);
        var e := Entry(Str(c.key), ValueOf(c.tree));
        NamedChildrenSnoc(NamedEntries(prev), e);
        assert NamedChild(e) == Child(c.key, Canon(c.tree));
        assert CanonNamed(t, k) == CanonNamed(t, k - 1) + [Child(c.key, Canon(c.tree))];
        assert NamedEntries(t.children[..k]) == NamedEntries(prev) + [e];
      } else {
        assert CanonNamed(t, k) == CanonNamed(t, k - 1);
        assert NamedEntries(t.children[..k]) == NamedEntries(prev);
      }
    }
  }

  lemma {:induction false} ArrayRoundTrip(t: Tree, k: nat)
    requires WellKeyed(t) && k <= |t.children|
    ensures ArrayChildren(Values(WithKey(t.children[..k], ""))) == CanonArray(t, k)
    decreases t, 0, k
  {
    if k > 0 {
      ArrayRoundTrip(t, k - 1);
      var prev, c := t.children[..k - 1], t.children[k - 1];
      WithKeyPrefix(t.children, k, "");
      CanonArrayStep(t, k);
      if c.key == "" {
        assert c in t.children;
        assert WellKeyed(c.tree);
        ValueRoundTrip(c.tree);
        ValuesSnoc(WithKey(prev, ""), c);
        ArrayChildrenSnoc(Values(WithKey(prev, "")), ValueOf(c.tree));
      } else {
        assert WithKey(t.children[..k], "") == WithKey(prev, "");
        assert CanonArray(t, k) == CanonArray(t, k - 1);
      }
    }
  }

  lemma CanonArrayStep(t: Tree, k: nat)
    requires 0 < k <= |t.children|
    ensures CanonArray(t, k) == CanonArray(t, k - 1) + (if t.children[k - 1].key == "" then [Child("", Canon(t.children[k - 1].tree))] else [])
  {
  }

  lemma {:induction false} ValueRoundTrip(t: Tree)
    requires WellKeyed(t)
    ensures ValueTree(ValueOf(t)) == Canon(t) && !ValueOf(t).Unsupported?
    decreases t, 2
  {
    if t.children != [] { TableRoundTrip(t); }
  }

  /** Pushing a well-keyed tree as a table and reading the table back gives
      the tree in canonical form. */
  lemma {:induction false} TableRoundTrip(t: Tree)
    requires WellKeyed(t)
    ensures TableTree(TableOf(t), EMPTY) == CanonTable(t)
    decreases t, 1
  {
    var v := TableOf(t);
    var n := |t.children|;
    assert t.children[..n] == t.children;
    FillTableDistinct(t, n);
    FillTableArray(t, n);
    FillTableKeys(t, n);
    assert v.hash == NamedEntries(t.children) && v.arrayPart == Values(WithKey(t.children, ""));
    TableLayout(v);
    NamedRoundTrip(t, n);
    ArrayRoundTrip(t, n);
  }

  lemma {:induction false} NamedEntriesOrigin(cs: seq<Child>, i: nat) returns (j: nat)
    requires i < |NamedEntries(cs)|
    ensures j < |cs| && NamedEntries(cs)[i] == Entry(Str(cs[j].key), ValueOf(cs[j].tree))
  {
    var prev, c := cs[..|cs| - 1], cs[|cs| - 1];
    assert cs == prev + [c];
    NamedEntriesSnoc(prev, c);
    if i < |NamedEntries(prev)| {
      j := NamedEntriesOrigin(prev, i);
    } else {
      j := |cs| - 1;
    }
  }

  lemma {:induction false} WithKeyMembers(cs: seq<Child>, k: string)
    ensures forall c :: c in WithKey(cs, k) ==> c in cs
  {
    if cs != [] {
      WithKeyMembers(cs[..|cs| - 1], k);
      assert cs == cs[..|cs| - 1] + [cs[|cs| - 1]];
    }
  }

  lemma {:induction false} PushedHashLogFree(t: Tree, k: nat)
    requires WellKeyed(t) && k <= |TableOf(t).hash|
    ensures HashLog(TableOf(t), k) == []
    decreases t, 0, k
  {
    if k > 0 {
      var v := TableOf(t);
      PushedHashLogFree(t, k - 1);
      assert t.children[..|t.children|] == t.children;
      FillTableDistinct(t, |t.children|);
      var j := NamedEntriesOrigin(t.children, k - 1);
      var c := t.children[j];
      assert WellKeyed(c.tree);
      PushedValueLogFree(c.tree, UnhandledValueType);
      assert v.hash[k - 1] == Entry(Str(c.key), ValueOf(c.tree));
      assert HashLog(v, k) == HashLog(v, k - 1) + EntryLog(v.hash[k - 1]);
    }
  }

  lemma {:induction false} PushedArrayLogFree(t: Tree, k: nat)
    requires WellKeyed(t) && k <= |TableOf(t).arrayPart|
    ensures ArrayLog(TableOf(t), k) == []
    decreases t, 0, k
  {
    if k > 0 {
      PushedArrayLogFree(t, k - 1);
      var n := |t.children|;
      assert t.children[..n] == t.children;
      FillTableArray(t, n);
      var c := WithKey(t.children, "")[k - 1];
      WithKeyMembers(t.children, "");
      assert c in t.children;
      PushedValueLogFree(c.tree, UnhandledArrayValueType);
    }
  }

  lemma {:induction false} PushedValueLogFree(t: Tree, unhandled: Diagnostic)
    requires WellKeyed(t)
    ensures ValueLog(ValueOf(t), unhandled) == []
    decreases t, 2, 0
  {
    if t.children != [] { PushedTableLogFree(t); }
  }

  /** Reading back a pushed table logs nothing: every key is a string and
      every value is supported. */
  lemma {:induction false} PushedTableLogFree(t: Tree)
    requires WellKeyed(t)
    ensures TableLog(TableOf(t)) == []
    decreases t, 1, 0
  {
    PushedHashLogFree(t, |TableOf(t).hash|);
    PushedArrayLogFree(t, |TableOf(t).arrayPart|);
  }

  /** The same through the stack: `Lua_PushPTreeAsTable` then `Lua_ToPTree`
      into a fresh tree. */
  lemma PushThenRead(stack: seq<LuaValue>, t: Tree)
    requires WellKeyed(t)
    ensures ToPTree(stack + [TableOf(t)], EMPTY) == CanonTable(t)
    ensures ToPTreeLog(stack + [TableOf(t)]) == []
  {
    TableRoundTrip(t);
    PushedTableLogFree(t);
  }

  /** A table literal with the same entries, in any order, and the same
      array part reads back as the same tree. */
  lemma LiteralMatchesPushedTree(t: Tree, literal: LuaValue)
    requires WellKeyed(t) && literal.Table? && DistinctKeyed(literal.hash)
    requires multiset(literal.hash) == multiset(TableOf(t).hash)
    requires literal.arrayPart == TableOf(t).arrayPart
    ensures ToPTree([literal], EMPTY) == ToPTree([TableOf(t)], EMPTY) == CanonTable(t)
  {
    TableOfShape(t);
    HashOrderIrrelevant(literal, TableOf(t));
    TableRoundTrip(t);
  }
}
