/** `LuaDebugger`: breakpoints, stepping, the REPL, the listings and the
    hook dispatch, as a class whose methods update its fields in place.
    Every method is proved against the value-level functions of
    `DebuggerSpec`. */
module Debugger {
  import opened Base
  import opened Breakpoints
  import opened LuaEnv
  import opened DebuggerSpec

  /** The targets of a sequence of breakpoint objects, in order. */
  function Targets(bs: seq<Breakpoint>): (ts: seq<Target>)
    ensures |ts| == |bs| && forall i :: 0 <= i < |bs| ==> ts[i] == bs[i].target
  {
    seq(|bs|, i requires 0 <= i < |bs| => bs[i].target)
  }

  lemma TargetsAppend(bs: seq<Breakpoint>, b: Breakpoint)
    ensures Targets(bs + [b]) == Targets(bs) + [b.target]
  {
  }

  /** `erase` at position `i`. */
  function Erase<T>(s: seq<T>, i: nat): (r: seq<T>)
    requires i < |s|
    ensures |r| == |s| - 1
    ensures forall j :: 0 <= j < |r| ==> r[j] == if j < i then s[j] else s[j + 1]
  {
    s[..i] + s[i + 1..]
  }

  lemma TargetsErase(bs: seq<Breakpoint>, i: nat)
    requires i < |bs|
    ensures Targets(Erase(bs, i)) == Erase(Targets(bs), i)
  {
  }

  /** A target is a key of its set. */
  predicate IsKey(fb: map<string, Breakpoint>, lb: map<(string, int), Breakpoint>, t: Target)
  {
    match t
    case FunctionTarget(n) => n in fb
    case LineTarget(f, l) => (f, l) in lb
  }

  /** The set entry filed under a key. */
  function Entry(fb: map<string, Breakpoint>, lb: map<(string, int), Breakpoint>, t: Target): Breakpoint
    requires IsKey(fb, lb, t)
  {
    match t
    case FunctionTarget(n) => fb[n]
    case LineTarget(f, l) => lb[(f, l)]
  }

  /** The two sets and the display list agree: every entry is filed under
      its own key and listed; the list holds set entries only, each once. */
  ghost predicate Consistent(bs: seq<Breakpoint>, fb: map<string, Breakpoint>, lb: map<(string, int), Breakpoint>)
  {
    && (forall n :: n in fb ==> fb[n].target == FunctionTarget(n) && fb[n] in bs)
    && (forall k :: k in lb ==> lb[k].target == LineTarget(k.0, k.1) && lb[k] in bs)
    && (forall i :: 0 <= i < |bs| ==> IsKey(fb, lb, bs[i].target) && Entry(fb, lb, bs[i].target) == bs[i])
    && Distinct(Targets(bs))
  }

  /** The display list lists exactly the keys of the two sets. */
  lemma ConsistentKeys(bs: seq<Breakpoint>, fb: map<string, Breakpoint>, lb: map<(string, int), Breakpoint>)
    requires Consistent(bs, fb, lb)
    ensures forall t :: t in Targets(bs) <==> IsKey(fb, lb, t)
  {
    forall t | IsKey(fb, lb, t) ensures t in Targets(bs) {
      var i :| 0 <= i < |bs| && bs[i] == Entry(fb, lb, t);
      assert Targets(bs)[i] == t;
    }
  }

  /** Filing a new function breakpoint and appending it to the list. */
  lemma ConsistentAddFunction(bs: seq<Breakpoint>, fb: map<string, Breakpoint>, lb: map<(string, int), Breakpoint>,
                              name: string, b: Breakpoint)
    requires Consistent(bs, fb, lb) && name !in fb && b.target == FunctionTarget(name)
    ensures Targets(bs + [b]) == AddBreakpoint(Targets(bs), b.target)
    ensures Consistent(bs + [b], fb[name := b], lb)
  {
    ConsistentKeys(bs, fb, lb);
    ConsistentAppend(bs, fb, lb, b, fb[name := b], lb);
  }

  /** Filing a new line breakpoint and appending it to the list. */
  lemma ConsistentAddLine(bs: seq<Breakpoint>, fb: map<string, Breakpoint>, lb: map<(string, int), Breakpoint>,
                          key: (string, int), b: Breakpoint)
    requires Consistent(bs, fb, lb) && key !in lb && b.target == LineTarget(key.0, key.1)
    ensures Targets(bs + [b]) == AddBreakpoint(Targets(bs), b.target)
    ensures Consistent(bs + [b], fb, lb[key := b])
  {
    ConsistentKeys(bs, fb, lb);
    ConsistentAppend(bs, fb, lb, b, fb, lb[key := b]);
  }

  /** Appending a breakpoint for a new target, filed in the updated sets. */
  lemma ConsistentAppend(bs: seq<Breakpoint>, fb: map<string, Breakpoint>, lb: map<(string, int), Breakpoint>,
                         b: Breakpoint, fb': map<string, Breakpoint>, lb': map<(string, int), Breakpoint>)
    requires Consistent(bs, fb, lb) && b.target !in Targets(bs)
    requires IsKey(fb', lb', b.target) && Entry(fb', lb', b.target) == b
    requires forall t :: IsKey(fb', lb', t) <==> IsKey(fb, lb, t) || t == b.target
    requires forall t :: IsKey(fb, lb, t) ==> Entry(fb', lb', t) == Entry(fb, lb, t)
    ensures Targets(bs + [b]) == AddBreakpoint(Targets(bs), b.target)
    ensures Consistent(bs + [b], fb', lb')
  {
    TargetsAppend(bs, b);
    AppendDistinct(bs, b);
    AppendFiled(bs, fb, lb, b, fb', lb');
    AppendListed(bs, fb, lb, b, fb', lb');
  }

  lemma AppendDistinct(bs: seq<Breakpoint>, b: Breakpoint)
    requires Distinct(Targets(bs)) && b.target !in Targets(bs)
    ensures Distinct(Targets(bs + [b]))
  {
    TargetsAppend(bs, b);
    var ts := Targets(bs + [b]);
    forall i, j | 0 <= i < j < |ts| ensures ts[i] != ts[j] {
      if j == |bs| { assert ts[i] == Targets(bs)[i]; }
    }
  }

  /** Every entry of the updated sets is filed under its key and listed. */
  lemma AppendFiled(bs: seq<Breakpoint>, fb: map<string, Breakpoint>, lb: map<(string, int), Breakpoint>,
                    b: Breakpoint, fb': map<string, Breakpoint>, lb': map<(string, int), Breakpoint>)
    requires Consistent(bs, fb, lb)
    requires IsKey(fb', lb', b.target) && Entry(fb', lb', b.target) == b
    requires forall t :: IsKey(fb', lb', t) <==> IsKey(fb, lb, t) || t == b.target
    requires forall t :: IsKey(fb, lb, t) ==> Entry(fb', lb', t) == Entry(fb, lb, t)
    ensures forall n :: n in fb' ==> fb'[n].target == FunctionTarget(n) && fb'[n] in bs + [b]
    ensures forall k :: k in lb' ==> lb'[k].target == LineTarget(k.0, k.1) && lb'[k] in bs + [b]
  {
    forall n | n in fb' ensures fb'[n].target == FunctionTarget(n) && fb'[n] in bs + [b] {
      assert IsKey(fb', lb', FunctionTarget(n));
      if FunctionTarget(n) != b.target { assert IsKey(fb, lb, FunctionTarget(n)); }
    }
    forall k | k in lb' ensures lb'[k].target == LineTarget(k.0, k.1) && lb'[k] in bs + [b] {
      assert IsKey(fb', lb', LineTarget(k.0, k.1));
      if LineTarget(k.0, k.1) != b.target { assert IsKey(fb, lb, LineTarget(k.0, k.1)); }
    }
  }

  /** Every listed breakpoint is the entry filed under its target. */
  lemma AppendListed(bs: seq<Breakpoint>, fb: map<string, Breakpoint>, lb: map<(string, int), Breakpoint>,
                     b: Breakpoint, fb': map<string, Breakpoint>, lb': map<(string, int), Breakpoint>)
    requires Consistent(bs, fb, lb)
    requires IsKey(fb', lb', b.target) && Entry(fb', lb', b.target) == b
    requires forall t :: IsKey(fb, lb, t) ==> IsKey(fb', lb', t) && Entry(fb', lb', t) == Entry(fb, lb, t)
    ensures forall i :: 0 <= i < |bs + [b]| ==>
      IsKey(fb', lb', (bs + [b])[i].target) && Entry(fb', lb', (bs + [b])[i].target) == (bs + [b])[i]
  {
    var bs' := bs + [b];
    forall i | 0 <= i < |bs'| ensures IsKey(fb', lb', bs'[i].target) && Entry(fb', lb', bs'[i].target) == bs'[i] {
      if i < |bs| { assert bs'[i] == bs[i]; }
    }
  }

  /** Erasing entry `i` of a list with distinct targets removes the first
      (and only) occurrence of its target. */
  lemma EraseTargets(bs: seq<Breakpoint>, i: nat)
    requires i < |bs| && Distinct(Targets(bs))
    ensures Targets(Erase(bs, i)) == RemoveFirst(Targets(bs), bs[i].target)
    ensures Distinct(Targets(Erase(bs, i)))
  {
    var ts := Targets(bs);
    var t := bs[i].target;
    assert t !in ts[..i] by {
      forall j | 0 <= j < i ensures ts[..i][j] != t { assert ts[j] != ts[i]; }
    }
    RemoveFirstAt(ts, t, i);
    assert Erase(ts, i) == ts[..i] + ts[i + 1..];
    TargetsErase(bs, i);
    RemoveFirstDistinct(ts, t);
  }

  /** Erasing entry `i` keeps every other element. */
  lemma EraseKeeps<T>(s: seq<T>, i: nat, x: T)
    requires i < |s| && x in s && x != s[i]
    ensures x in Erase(s, i)
  {
    var j :| 0 <= j < |s| && s[j] == x;
    if j < i { assert Erase(s, i)[j] == x; } else { assert Erase(s, i)[j - 1] == x; }
  }

  /** Erasing entry `i`, whose key leaves its set. */
  lemma ConsistentErase(bs: seq<Breakpoint>, fb: map<string, Breakpoint>, lb: map<(string, int), Breakpoint>,
                        i: nat, fb': map<string, Breakpoint>, lb': map<(string, int), Breakpoint>)
    requires Consistent(bs, fb, lb) && i < |bs|
    requires forall t :: IsKey(fb', lb', t) <==> IsKey(fb, lb, t) && t != bs[i].target
    requires forall t :: IsKey(fb', lb', t) ==> Entry(fb', lb', t) == Entry(fb, lb, t)
    ensures Targets(Erase(bs, i)) == RemoveFirst(Targets(bs), bs[i].target)
    ensures Consistent(Erase(bs, i), fb', lb')
  {
    EraseTargets(bs, i);
    EraseFiled(bs, fb, lb, i, fb', lb');
    EraseListed(bs, fb, lb, i, fb', lb');
  }

  /** Every entry left in the sets is still filed and listed. */
  lemma EraseFiled(bs: seq<Breakpoint>, fb: map<string, Breakpoint>, lb: map<(string, int), Breakpoint>,
                   i: nat, fb': map<string, Breakpoint>, lb': map<(string, int), Breakpoint>)
    requires Consistent(bs, fb, lb) && i < |bs|
    requires forall t :: IsKey(fb', lb', t) ==> IsKey(fb, lb, t) && t != bs[i].target
    requires forall t :: IsKey(fb', lb', t) ==> Entry(fb', lb', t) == Entry(fb, lb, t)
    ensures forall n :: n in fb' ==> fb'[n].target == FunctionTarget(n) && fb'[n] in Erase(bs, i)
    ensures forall k :: k in lb' ==> lb'[k].target == LineTarget(k.0, k.1) && lb'[k] in Erase(bs, i)
  {
    forall n | n in fb' ensures fb'[n].target == FunctionTarget(n) && fb'[n] in Erase(bs, i) {
      assert IsKey(fb', lb', FunctionTarget(n));
      EraseKeeps(bs, i, fb'[n]);
    }
    forall k | k in lb' ensures lb'[k].target == LineTarget(k.0, k.1) && lb'[k] in Erase(bs, i) {
      assert IsKey(fb', lb', LineTarget(k.0, k.1));
      EraseKeeps(bs, i, lb'[k]);
    }
  }

  /** Every breakpoint left in the list is still filed under its target. */
  lemma EraseListed(bs: seq<Breakpoint>, fb: map<string, Breakpoint>, lb: map<(string, int), Breakpoint>,
                    i: nat, fb': map<string, Breakpoint>, lb': map<(string, int), Breakpoint>)
    requires Consistent(bs, fb, lb) && i < |bs|
    requires forall t :: IsKey(fb, lb, t) && t != bs[i].target ==> IsKey(fb', lb', t)
    requires forall t :: IsKey(fb', lb', t) ==> IsKey(fb, lb, t) && Entry(fb', lb', t) == Entry(fb, lb, t)
    ensures forall j :: 0 <= j < |Erase(bs, i)| ==>
      IsKey(fb', lb', Erase(bs, i)[j].target) && Entry(fb', lb', Erase(bs, i)[j].target) == Erase(bs, i)[j]
  {
    var ts := Targets(bs);
    var rest := Erase(bs, i);
    forall j | 0 <= j < |rest| ensures IsKey(fb', lb', rest[j].target) && Entry(fb', lb', rest[j].target) == rest[j] {
      if j < i {
        assert ts[j] != ts[i];
      } else {
        assert ts[j + 1] != ts[i];
      }
    }
  }

  /** Unfiling a function breakpoint and erasing its list entry. */
  lemma ConsistentRemoveFunction(bs: seq<Breakpoint>, fb: map<string, Breakpoint>, lb: map<(string, int), Breakpoint>,
                                 name: string, i: nat)
    requires Consistent(bs, fb, lb) && name in fb && i < |bs| && bs[i] == fb[name]
    ensures Targets(Erase(bs, i)) == RemoveFirst(Targets(bs), FunctionTarget(name))
    ensures Consistent(Erase(bs, i), fb - {name}, lb)
  {
    ConsistentErase(bs, fb, lb, i, fb - {name}, lb);
  }

  /** Unfiling a line breakpoint and erasing its list entry. */
  lemma ConsistentRemoveLine(bs: seq<Breakpoint>, fb: map<string, Breakpoint>, lb: map<(string, int), Breakpoint>,
                             key: (string, int), i: nat)
    requires Consistent(bs, fb, lb) && key in lb && i < |bs| && bs[i] == lb[key]
    ensures Targets(Erase(bs, i)) == RemoveFirst(Targets(bs), LineTarget(key.0, key.1))
    ensures Consistent(Erase(bs, i), fb, lb - {key})
  {
    ConsistentErase(bs, fb, lb, i, fb, lb - {key});
  }

  /** The sets and the list after `SetFunctionBreakpoint(name)`: `emplace`
      of the node `stored` (built before the set looks for the name), and
      `push_back` only when the name was not set. */
  function AddFunctionEntry(bs: seq<Breakpoint>, fb: map<string, Breakpoint>, lb: map<(string, int), Breakpoint>,
                            name: string, stored: Breakpoint): (r: (seq<Breakpoint>, map<string, Breakpoint>))
    requires Consistent(bs, fb, lb) && stored.target == FunctionTarget(name)
    ensures Consistent(r.0, r.1, lb)
    ensures Targets(r.0) == AddBreakpoint(Targets(bs), FunctionTarget(name))
    ensures r.1.Keys == fb.Keys + {name}
    ensures forall n :: n in fb ==> r.1[n] == fb[n]
    ensures name !in fb ==> r.1[name] == stored
  {
    if name in fb then
      ConsistentPresent(bs, fb, lb, FunctionTarget(name));
      (bs, fb)
    else
      ConsistentAddFunction(bs, fb, lb, name, stored);
      (bs + [stored], fb[name := stored])
  }

  /** The sets and the list after `SetLineBreakpoint(key.0, key.1)`. */
  function AddLineEntry(bs: seq<Breakpoint>, fb: map<string, Breakpoint>, lb: map<(string, int), Breakpoint>,
                        key: (string, int), stored: Breakpoint): (r: (seq<Breakpoint>, map<(string, int), Breakpoint>))
    requires Consistent(bs, fb, lb) && stored.target == LineTarget(key.0, key.1)
    ensures Consistent(r.0, fb, r.1)
    ensures Targets(r.0) == AddBreakpoint(Targets(bs), LineTarget(key.0, key.1))
    ensures r.1.Keys == lb.Keys + {key}
    ensures forall k :: k in lb ==> r.1[k] == lb[k]
    ensures key !in lb ==> r.1[key] == stored
  {
    if key in lb then
      ConsistentPresent(bs, fb, lb, LineTarget(key.0, key.1));
      (bs, lb)
    else
      ConsistentAddLine(bs, fb, lb, key, stored);
      (bs + [stored], lb[key := stored])
  }

  /** A target already in the sets is in the list, so adding it changes
      nothing. */
  lemma ConsistentPresent(bs: seq<Breakpoint>, fb: map<string, Breakpoint>, lb: map<(string, int), Breakpoint>,
                          t: Target)
    requires Consistent(bs, fb, lb) && IsKey(fb, lb, t)
    ensures AddBreakpoint(Targets(bs), t) == Targets(bs)
  {
    ConsistentKeys(bs, fb, lb);
  }

  /** A target absent from the sets is absent from the list, so removing
      it changes nothing. */
  lemma ConsistentRemoveAbsent(bs: seq<Breakpoint>, fb: map<string, Breakpoint>, lb: map<(string, int), Breakpoint>,
                               t: Target)
    requires Consistent(bs, fb, lb) && !IsKey(fb, lb, t)
    ensures RemoveFirst(Targets(bs), t) == Targets(bs)
  {
    ConsistentKeys(bs, fb, lb);
    RemoveAbsent(Targets(bs), t);
  }

  class LuaDebugger {
    /** The thread of the debugged script. */
    const thread: LuaThread
    var inStream: InStream
    var outStream: OutStream
    /** `_breakpoints`: the display list, in the order the keys were set. */
    var breakpoints: seq<Breakpoint>
    /** `_functionBreakpoints`, keyed by the name it is ordered by. */
    var functionBreakpoints: map<string, Breakpoint>
    /** `_lineBreakpoints`, keyed by the (file, line) pair it is ordered by. */
    var lineBreakpoints: map<(string, int), Breakpoint>
    /** `_stepBreakpoint`; None is the null pointer. */
    var step: Option<Target>
    var state: DebuggerState

    /** The sets and the display list agree, and a stepping debugger has
        a step target. */
    ghost predicate Valid()
      reads this
    {
      Consistent(breakpoints, functionBreakpoints, lineBreakpoints) && (state == Stepping ==> step.Some?)
    }

    /** The breakpoints and the stream references stay as they were. */
    twostate predicate Keeps()
      reads this
    {
      && breakpoints == old(breakpoints)
      && functionBreakpoints == old(functionBreakpoints)
      && lineBreakpoints == old(lineBreakpoints)
      && inStream == old(inStream)
      && outStream == old(outStream)
    }

    /** The mask UpdateHooks computes for the current state. */
    function Mask(): bv32
      reads this
    {
      HookMask(state, functionBreakpoints.Keys != {}, lineBreakpoints.Keys != {})
    }

    /** What the REPL reads of the debugger, for a paused VM. */
    function Context(vm: Vm, outGood: bool): ReplContext
      reads this
    {
      ReplContext(functionBreakpoints.Keys != {}, lineBreakpoints.Keys != {}, vm, outGood)
    }

    /** The REPL's view of the debugger, of the streams it talks to, and of
        its last token and argument buffer. */
    function SessionOf(input: InStream, output: OutStream, command: string, args: seq<char>): Session
      reads this, thread, input, output
    {
      Session(state, step, thread.hook, input.lines, input.endsWithNewline, input.good, output.written, command, args)
    }

    /** Everything DebugHook may change. */
    function Footprint(): set<object>
      reads this
    {
      {this, thread, inStream, outStream} + set i | 0 <= i < |breakpoints| :: breakpoints[i]
    }

    // -------------------------------------------------------------------
    // Construction and destruction

    /** Registers the new debugger as the hook of its thread, replacing any
        earlier registration; no hook is installed yet. */
    constructor (thread: LuaThread, inStream: InStream, outStream: OutStream, registry: DebuggerRegistry)
      modifies registry
      ensures Valid()
      ensures this.thread == thread && this.inStream == inStream && this.outStream == outStream
      ensures breakpoints == [] && functionBreakpoints == map[] && lineBreakpoints == map[]
      ensures step == None && state == Idle
      ensures registry.hooks == old(registry.hooks)[thread.id := this]
    {
      this.thread := thread;
      this.inStream := inStream;
      this.outStream := outStream;
      breakpoints := [];
      functionBreakpoints := map[];
      lineBreakpoints := map[];
      step := None;
      state := Idle;
      new;
      registry.hooks := registry.hooks[thread.id := this];
    }

    /** The destructor: removes the hook, erases the thread's registration
        and discards the step breakpoint. */
    method Destroy(registry: DebuggerRegistry)
      requires Valid()
      modifies this, thread, registry
      ensures Keeps() && step == None && state == old(state)
      ensures thread.hook == NoHook && thread.top == old(thread.top)
      ensures registry.hooks == old(registry.hooks) - {thread.id}
    {
      thread.SetHook(NoHook);
      registry.hooks := registry.hooks - {thread.id};
      step := None;
    }

    method SetInStream(s: InStream)
      modifies this
      ensures inStream == s && outStream == old(outStream)
      ensures breakpoints == old(breakpoints) && functionBreakpoints == old(functionBreakpoints)
      ensures lineBreakpoints == old(lineBreakpoints) && step == old(step) && state == old(state)
    {
      inStream := s;
    }

    method SetOutStream(s: OutStream)
      modifies this
      ensures outStream == s && inStream == old(inStream)
      ensures breakpoints == old(breakpoints) && functionBreakpoints == old(functionBreakpoints)
      ensures lineBreakpoints == old(lineBreakpoints) && step == old(step) && state == old(state)
    {
      outStream := s;
    }

    // -------------------------------------------------------------------
    // UpdateHooks

    method UpdateHooks()
      modifies thread
      ensures thread.hook == Trampoline(Mask()) && thread.top == old(thread.top)
    {
      thread.SetHook(Trampoline(HookMask(state, functionBreakpoints.Keys != {}, lineBreakpoints.Keys != {})));
    }

    // -------------------------------------------------------------------
    // Function breakpoints

    /** A new name gets a fresh counter and goes to the end of the display
        list; a name already set changes nothing.  The hooks are recomputed
        either way. */
    method SetFunctionBreakpoint(name: string)
      requires Valid()
      modifies this, thread
      ensures Valid()
      ensures Targets(breakpoints) == AddBreakpoint(old(Targets(breakpoints)), FunctionTarget(name))
      ensures functionBreakpoints.Keys == old(functionBreakpoints.Keys) + {name}
      ensures forall n :: n in old(functionBreakpoints) ==> functionBreakpoints[n] == old(functionBreakpoints[n])
      ensures name !in old(functionBreakpoints) ==>
        fresh(functionBreakpoints[name]) && functionBreakpoints[name].hitCount == 0
      ensures lineBreakpoints == old(lineBreakpoints) && step == old(step) && state == old(state)
      ensures inStream == old(inStream) && outStream == old(outStream)
      ensures thread.hook == Trampoline(Mask()) && thread.top == old(thread.top)
    {
      var candidate := new Breakpoint.Function(name);
      var stored := new Breakpoint.Copy(candidate);
      var entries := AddFunctionEntry(breakpoints, functionBreakpoints, lineBreakpoints, name, stored);
      breakpoints, functionBreakpoints := entries.0, entries.1;
      assert Valid();
      UpdateHooks();
    }

    /** Removes the name from the set and its entry from the display list,
        keeping the other entries in order; an absent name changes nothing.
        The hooks are recomputed either way. */
    method UnsetFunctionBreakpoint(name: string)
      requires Valid()
      modifies this, thread
      ensures Valid()
      ensures Targets(breakpoints) == RemoveFirst(old(Targets(breakpoints)), FunctionTarget(name))
      ensures functionBreakpoints == old(functionBreakpoints) - {name}
      ensures lineBreakpoints == old(lineBreakpoints) && step == old(step) && state == old(state)
      ensures inStream == old(inStream) && outStream == old(outStream)
      ensures thread.hook == Trampoline(Mask()) && thread.top == old(thread.top)
    {
      var bs, fb := RemoveFunctionEntry(breakpoints, functionBreakpoints, lineBreakpoints, name);
      breakpoints, functionBreakpoints := bs, fb;
      UpdateHooks();
    }

    /** The sets and the list after `UnsetFunctionBreakpoint(name)`: the
        list entry of the name's breakpoint is erased with the name. */
    static method RemoveFunctionEntry(bs: seq<Breakpoint>, fb: map<string, Breakpoint>, lb: map<(string, int), Breakpoint>,
                                      name: string)
      returns (bs': seq<Breakpoint>, fb': map<string, Breakpoint>)
      requires Consistent(bs, fb, lb)
      ensures Consistent(bs', fb', lb)
      ensures Targets(bs') == RemoveFirst(Targets(bs), FunctionTarget(name))
      ensures fb' == fb - {name}
    {
      bs', fb' := bs, fb;
      if name in fb {
        var i := FindEntry(bs, fb[name]);
        ConsistentRemoveFunction(bs, fb, lb, name, i);
        bs', fb' := Erase(bs, i), fb - {name};
      } else {
        ConsistentRemoveAbsent(bs, fb, lb, FunctionTarget(name));
      }
    }

    /** `GetBreakpointForFunction`: the set entry for the name, or null. */
    function GetBreakpointForFunction(name: string): (b: Breakpoint?)
      requires Valid()
      reads this
      ensures b != null <==> name in functionBreakpoints
      ensures b != null ==> b.target == FunctionTarget(name) && b in breakpoints
    {
      if name in functionBreakpoints then functionBreakpoints[name] else null
    }

    // -------------------------------------------------------------------
    // Line breakpoints

    method SetLineBreakpoint(file: string, line: int)
      requires Valid()
      modifies this, thread
      ensures Valid()
      ensures Targets(breakpoints) == AddBreakpoint(old(Targets(breakpoints)), LineTarget(file, line))
      ensures lineBreakpoints.Keys == old(lineBreakpoints.Keys) + {(file, line)}
      ensures forall k :: k in old(lineBreakpoints) ==> lineBreakpoints[k] == old(lineBreakpoints[k])
      ensures (file, line) !in old(lineBreakpoints) ==>
        fresh(lineBreakpoints[(file, line)]) && lineBreakpoints[(file, line)].hitCount == 0
      ensures functionBreakpoints == old(functionBreakpoints) && step == old(step) && state == old(state)
      ensures inStream == old(inStream) && outStream == old(outStream)
      ensures thread.hook == Trampoline(Mask()) && thread.top == old(thread.top)
    {
      var candidate := new Breakpoint.Line(file, line);
      var stored := new Breakpoint.Copy(candidate);
      var entries := AddLineEntry(breakpoints, functionBreakpoints, lineBreakpoints, (file, line), stored);
      breakpoints, lineBreakpoints := entries.0, entries.1;
      assert Valid();
      UpdateHooks();
    }

    method UnsetLineBreakpoint(file: string, line: int)
      requires Valid()
      modifies this, thread
      ensures Valid()
      ensures Targets(breakpoints) == RemoveFirst(old(Targets(breakpoints)), LineTarget(file, line))
      ensures lineBreakpoints == old(lineBreakpoints) - {(file, line)}
      ensures functionBreakpoints == old(functionBreakpoints) && step == old(step) && state == old(state)
      ensures inStream == old(inStream) && outStream == old(outStream)
      ensures thread.hook == Trampoline(Mask()) && thread.top == old(thread.top)
    {
      var bs, lb := RemoveLineEntry(breakpoints, functionBreakpoints, lineBreakpoints, (file, line));
      breakpoints, lineBreakpoints := bs, lb;
      UpdateHooks();
    }

    /** The sets and the list after `UnsetLineBreakpoint(file, line)`. */
    static method RemoveLineEntry(bs: seq<Breakpoint>, fb: map<string, Breakpoint>, lb: map<(string, int), Breakpoint>,
                                  key: (string, int))
      returns (bs': seq<Breakpoint>, lb': map<(string, int), Breakpoint>)
      requires Consistent(bs, fb, lb)
      ensures Consistent(bs', fb, lb')
      ensures Targets(bs') == RemoveFirst(Targets(bs), LineTarget(key.0, key.1))
      ensures lb' == lb - {key}
    {
      bs', lb' := bs, lb;
      if key in lb {
        var i := FindEntry(bs, lb[key]);
        ConsistentRemoveLine(bs, fb, lb, key, i);
        bs', lb' := Erase(bs, i), lb - {key};
      } else {
        ConsistentRemoveAbsent(bs, fb, lb, LineTarget(key.0, key.1));
      }
    }

    function GetBreakpointForLine(file: string, line: int): (b: Breakpoint?)
      requires Valid()
      reads this
      ensures b != null <==> (file, line) in lineBreakpoints
      ensures b != null ==> b.target == LineTarget(file, line) && b in breakpoints
    {
      if (file, line) in lineBreakpoints then lineBreakpoints[(file, line)] else null
    }

    /** The search loop of the unset methods: the position of the first
        occurrence of an entry of the display list. */
    static method FindEntry(bs: seq<Breakpoint>, b: Breakpoint) returns (i: nat)
      requires b in bs
      ensures i < |bs| && bs[i] == b
      ensures forall j :: 0 <= j < i ==> bs[j] != b
    {
      i := 0;
      while bs[i] != b
        invariant i < |bs| && b in bs[i..]
        invariant forall j :: 0 <= j < i ==> bs[j] != b
        decreases |bs| - i
      {
        assert bs[i..] == [bs[i]] + bs[i + 1..];
        i := i + 1;
      }
    }

    // -------------------------------------------------------------------
    // Control interfaces

    /** Stop at the next line of the current frame's file. */
    method Step(vm: Vm)
      requires |vm.frames| > 0
      requires Valid()
      modifies this
      ensures Valid() && Keeps()
      ensures state == Stepping && step == Some(StepTarget(vm.frames[0]))
    {
      state := Stepping;
      var f := GetStack(vm).value;
      step := Some(LineTarget(f.shortSrc, f.currentLine + 1));
    }

    /** Stop at the next event delivered, in any file. */
    method Next()
      requires Valid()
      modifies this
      ensures Valid() && Keeps()
      ensures state == Stepping && step == Some(AnyLine())
    {
      state := Stepping;
      step := Some(AnyLine());
    }

    /** Stop when the current function returns, found by its name; an
        unnamed frame falls back to Step. */
    method StepToReturn(vm: Vm)
      requires |vm.frames| > 0
      requires Valid()
      modifies this
      ensures Valid() && Keeps()
      ensures state == Stepping && step == Some(ReturnTarget(vm.frames[0]))
    {
      var f := GetStack(vm).value;
      if f.name.Some? {
        state := Stepping;
        step := Some(FunctionTarget(f.name.value));
      } else {
        Step(vm);
      }
    }

    /** Leave the REPL; the persistent breakpoints and the step target stay. */
    method Continue()
      requires Valid()
      modifies this
      ensures Valid() && Keeps()
      ensures state == Continuing && step == old(step)
    {
      state := Continuing;
    }

    // -------------------------------------------------------------------
    // Display interfaces

    method PrintStackFrame(out: OutStream, vm: Vm, level: int)
      requires 0 <= level < |vm.frames|
      modifies out
      ensures out.written == old(out.written) + [FrameLine(vm.frames[level])] && out.good == old(out.good)
    {
      var f := GetStack(vm, level).value;
      var name := if f.name.Some? then f.name.value else "(anon)";
      out.Write(name + " at " + f.shortSrc + ":" + IntText(f.currentLine) + "\n");
    }

    /** Prints frame 1, the caller of the paused function. */
    method PrintCurrentStackFrame(out: OutStream, vm: Vm)
      requires |vm.frames| > 1
      modifies out
      ensures out.written == old(out.written) + [FrameLine(vm.frames[1])] && out.good == old(out.good)
    {
      PrintStackFrame(out, vm, 1);
    }

    method PrintBacktrace(out: OutStream, vm: Vm)
      modifies out
      ensures out.written == old(out.written) + Backtrace(vm.frames) && out.good == old(out.good)
    {
      var level := 0;
      ghost var w0, good := out.written, out.good;
      BacktraceNone(w0, vm.frames);
      var found := GetDebugStack(vm, level);
      while found
        invariant 0 <= level <= |vm.frames| && (found <==> level < |vm.frames|)
        invariant out.written == w0 + Backtrace(vm.frames, level) && out.good == good
        decreases |vm.frames| - level
      {
        level := PrintLevel(out, vm, level, w0);
        found := GetDebugStack(vm, level);
      }
    }

    /** `GetDebugStack`: whether the thread has a frame at `stackFrame`. */
    static method GetDebugStack(vm: Vm, stackFrame: nat) returns (found: bool)
      ensures found <==> stackFrame < |vm.frames|
    {
      found := GetStack(vm, stackFrame).Some?;
    }

    /** One step of PrintBacktrace: the numbered header and the description
        of frame `level`. */
    method PrintLevel(out: OutStream, vm: Vm, level: nat, ghost w0: seq<string>) returns (after: nat)
      requires level < |vm.frames|
      requires out.written == w0 + Backtrace(vm.frames, level)
      modifies out
      ensures after == level + 1
      ensures out.written == w0 + Backtrace(vm.frames, after) && out.good == old(out.good)
    {
      ghost var b := Backtrace(vm.frames, level);
      out.Write("(" + IntText(level) + ") ");
      PrintStackFrame(out, vm, level);
      after := level + 1;
      assert Backtrace(vm.frames, after) == b + ["(" + IntText(level) + ") ", FrameLine(vm.frames[level])];
      AppendAssoc(w0, b, ["(" + IntText(level) + ") ", FrameLine(vm.frames[level])]);
    }

    /** Lists the current frame's source around its current line.  The
        file is read line by line; a read succeeds while lines remain.
        `stackFrame` is accepted and, as in the source, not used. */
    method PrintSource(out: OutStream, vm: Vm, context: nat := 4, stackFrame: nat := 0)
      modifies out
      ensures out.written == old(out.written) + SourceText(vm, context) && out.good == old(out.good)
    {
      var frame := GetStack(vm);
      if frame.None? || frame.value.source.None? {
        return;
      }
      var f := frame.value;
      var src := f.source.value;
      if SourcePath(src) !in vm.files {
        out.Write("< No Source (" + src + ")>\n");
        return;
      }
      PrintListing(out, vm.files[SourcePath(src)], f.currentLine, context);
    }

    /** The three loops of PrintSource over a readable file. */
    static method PrintListing(out: OutStream, lines: seq<string>, cur: int, context: nat)
      modifies out
      ensures out.written == old(out.written) + Render(Listing(lines, cur, context)) && out.good == old(out.good)
    {
      var p0, linesToSkip := SkipLines(lines, cur, context);
      // context before: the line numbers run on from p0 + 1
      var p1 := PrintLines(out, lines, p0, context + linesToSkip);
      ghost var w1 := out.written;
      // the current line, read whether or not the file has it
      var p2 := PrintCurrentLine(out, lines, p1);
      ghost var w2 := out.written;
      // context after
      var p3 := PrintLines(out, lines, p2, context);
      ListingParts(lines, cur, context, p0, p1, p2, p3);
      ListingWritten(old(out.written), lines, p0, p1, w1,
                     Row(p1 + 1, true, if p1 < |lines| then lines[p1] else ""), w2,
                     p2, p3, out.written);
    }

    /** The first loop of PrintSource: the lines before the listing are read
        and dropped, as far as the file has them. */
    static method SkipLines(lines: seq<string>, cur: int, context: nat) returns (pos: nat, linesToSkip: int)
      ensures pos == SkippedLines(|lines|, cur, context)
      ensures linesToSkip == cur - context - 1 - pos
      ensures pos + LinesBefore(|lines|, cur, context) == pos + (if context + linesToSkip <= 0 then 0 else Min(context + linesToSkip, |lines| - pos))
    {
      pos := 0;
      linesToSkip := cur - context - 1;
      while linesToSkip > 0 && pos < |lines|
        invariant 0 <= pos <= |lines| && linesToSkip == cur - context - 1 - pos
        invariant cur - context - 1 <= 0 ==> pos == 0
        invariant cur - context - 1 > 0 ==> pos <= cur - context - 1
      {
        pos := pos + 1;
        linesToSkip := linesToSkip - 1;
      }
    }

    /** The arrowed row: the next line if the file has one, else an empty
        text after the arrow. */
    static method PrintCurrentLine(out: OutStream, lines: seq<string>, pos: nat) returns (next: nat)
      requires pos <= |lines|
      modifies out
      ensures next == if pos < |lines| then pos + 1 else pos
      ensures out.written == old(out.written) + RowText(Row(pos + 1, true, if pos < |lines| then lines[pos] else ""))
      ensures out.good == old(out.good)
    {
      next := pos;
      var text := "";
      if pos < |lines| {
        text := lines[pos];
        next := pos + 1;
      }
      PrintRow(out, Row(pos + 1, true, text));
    }

    /** One numbered line of a listing: the line number, the text and the
        end of line. */
    static method PrintRow(out: OutStream, r: Row)
      modifies out
      ensures out.written == old(out.written) + RowText(r)
      ensures out.good == old(out.good)
    {
      PrintLineNumber(out, r.number, r.arrow);
      out.Write(r.text);
      out.Write("\n");
    }

    /** Listing, cut where PrintListing's loops cut it: `p0` .. `p3` are
        the read positions after each of its four steps. */
    static lemma ListingParts(lines: seq<string>, cur: int, context: nat, p0: nat, p1: nat, p2: nat, p3: nat)
      requires p0 == SkippedLines(|lines|, cur, context) && p1 == p0 + LinesBefore(|lines|, cur, context)
      requires p2 == if p1 < |lines| then p1 + 1 else p1
      requires p3 == p2 + (if context <= 0 then 0 else Min(context, |lines| - p2))
      ensures Listing(lines, cur, context)
           == Rows(lines, p0 + 1, p1 - p0) + [Row(p1 + 1, true, if p1 < |lines| then lines[p1] else "")]
            + Rows(lines, p2 + 1, p3 - p2)
    {
      var n := |lines|;
      if p1 + 1 <= n {
        assert Min(context, n - (p1 + 1)) == p3 - p2;
      } else {
        assert p3 == p2;
      }
    }

    /** `PrintLineNumber`: the marker, the number and the padding that
        aligns the text after it. */
    static method PrintLineNumber(out: OutStream, lineNumber: nat, printArrow: bool := false)
      modifies out
      ensures out.written == old(out.written) + [Marker(printArrow), NatText(lineNumber), Padding(|NatText(lineNumber)|)]
      ensures out.good == old(out.good)
    {
      if !printArrow {
        out.Write("   ");
      } else {
        out.Write("-> ");
      }
      var str := NatText(lineNumber);
      out.Write(str);
      out.Write(Padding(|str|));
    }

    /** One context loop of PrintSource: up to `count` lines from line
        `pos + 1` on, each numbered, while the file has lines. */
    static method PrintLines(out: OutStream, lines: seq<string>, pos: nat, count: int) returns (next: nat)
      requires pos <= |lines|
      modifies out
      ensures pos <= next <= |lines|
      ensures next == pos + (if count <= 0 then 0 else Min(count, |lines| - pos))
      ensures out.written == old(out.written) + Listed(lines, pos, next)
      ensures out.good == old(out.good)
    {
      next := pos;
      var linesToPrint := count;
      ghost var w0, good := out.written, out.good;
      ListedNone(w0, lines, pos);
      while linesToPrint > 0 && next < |lines|
        invariant pos <= next <= |lines| && linesToPrint == count - (next - pos)
        invariant count <= 0 ==> next == pos
        invariant count > 0 ==> next - pos <= count
        invariant out.written == w0 + Listed(lines, pos, next) && out.good == good
      {
        next := PrintNextRow(out, lines, pos, next, w0);
        linesToPrint := linesToPrint - 1;
      }
      PrintedCount(pos, next, count, linesToPrint, |lines|);
    }

    /** One step of a context loop: line `next + 1` printed after the
        rows already written. */
    static method PrintNextRow(out: OutStream, lines: seq<string>, pos: nat, next: nat, ghost w0: seq<string>)
        returns (after: nat)
      requires pos <= next < |lines|
      requires out.written == w0 + Listed(lines, pos, next)
      modifies out
      ensures after == next + 1
      ensures out.written == w0 + Listed(lines, pos, after)
      ensures out.good == old(out.good)
    {
      after := next + 1;
      ghost var w := out.written;
      var row := Row(next + 1, false, lines[next]);
      PrintRow(out, row);
      RowWritten(w0, Rows(lines, pos + 1, next - pos), w, row, out.written);
      RowsSnoc(lines, pos, next - pos);
    }

    /** Where a context loop stops: after `count` lines or at the end of
        the file, whichever comes first. */
    static lemma PrintedCount(pos: nat, next: nat, count: int, linesToPrint: int, n: nat)
      requires pos <= next <= n && linesToPrint == count - (next - pos)
      requires count <= 0 ==> next == pos
      requires count > 0 ==> next - pos <= count
      requires !(linesToPrint > 0 && next < n)
      ensures next == pos + (if count <= 0 then 0 else Min(count, n - pos))
    {
    }

    /** `printExpression`: the wrapper chunk for `expression`, built line by
        line while the frame's upvalues and then its locals are enumerated,
        and the number of upvalue values the enumeration pushed. */
    static method WrapperChunk(f: Frame, expression: string) returns (text: string, numUpValues: nat)
      requires LocalsEnd(f)
      ensures text == WrapperText(f, expression)
      ensures numUpValues == |ProbedUpvalueNames(f)|
    {
      ghost var ls0: seq<string> := [];
      var t0 := "";
      var t1, ls1 := AddLine(t0, ls0, "local _ENV = {}");
      var t2, ls2 := AddLine(t1, ls1, "local upvals = {...}");
      var t3;
      ghost var ls3;
      t3, ls3, numUpValues := AddUpvalueLines(t2, ls2, Closure(f.upvalues));
      var t4, ls4 := AddLine(t3, ls3, "return function(...)");
      var t5, ls5 := AddLine(t4, ls4, "  local locals = {...}");
      var t6, ls6 := AddLocalLines(t5, ls5, f.localNames);
      var t7, ls7 := AddLine(t6, ls6, "  return " + expression);
      var t8, ls8 := AddLine(t7, ls7, "end");
      SnocTwice(ls0, "local _ENV = {}", "local upvals = {...}");
      SnocTwice(ls3, "return function(...)", "  local locals = {...}");
      SnocTwice(ls6, "  return " + expression, "end");
      WrapperLinesParts(f, expression, ls2, ls3, ls5, ls6, ls8);
      text := t8;
    }

    /** `lua_getupvalue(thread, -1, numUpValues + 1)` until NULL, starting
        with `func` on top of the stack: one line per name reported,
        each success pushing the upvalue's value on top. */
    static method AddUpvalueLines(text: string, ghost ls: seq<string>, func: UpvalueValue)
      returns (text': string, ghost ls': seq<string>, numUpValues: nat)
      requires text == Unlines(ls)
      ensures ls' == ls + UpvalueLines(ProbedNames(func, 0)) && text' == Unlines(ls')
      ensures numUpValues == |ProbedNames(func, 0)|
    {
      text', ls' := text, ls;
      ghost var names := ProbedNames(func, 0);
      var top := func;
      numUpValues := 0;
      while true
        invariant numUpValues <= |names|
        invariant names == names[..numUpValues] + ProbedNames(top, numUpValues)
        invariant ls' == ls + UpvalueLines(names[..numUpValues])
        invariant text' == Unlines(ls')
        decreases top
      {
        var upvalue := GetUpvalue(top, numUpValues + 1);
        if upvalue.None? {
          break;
        }
        var name := upvalue.value.name;
        ProbedStep(names, top, numUpValues);
        text', ls' := AddLine(text', ls', UpvalueLine(name, numUpValues + 1));
        UpvalueLinesNext(names, numUpValues);
        AppendAssoc(ls, UpvalueLines(names[..numUpValues]), [UpvalueLine(name, numUpValues + 1)]);
        assert top.upvalues[numUpValues] in top.upvalues;
        top := upvalue.value.value;
        numUpValues := numUpValues + 1;
      }
      assert names[..numUpValues] == names;
    }

    /** One successful probe: the name found is the next one reported, and
        the rest are reported by probing its value. */
    static lemma ProbedStep(names: seq<string>, top: UpvalueValue, n: nat)
      requires n <= |names| && names == names[..n] + ProbedNames(top, n)
      requires top.Closure? && n < |top.upvalues|
      ensures n < |names| && names[n] == top.upvalues[n].name
      ensures names == names[..n + 1] + ProbedNames(top.upvalues[n].value, n + 1)
    {
      var rest := ProbedNames(top.upvalues[n].value, n + 1);
      assert names == names[..n] + [top.upvalues[n].name] + rest;
      assert names[..n + 1] == names[..n] + [top.upvalues[n].name];
    }

    /** `lua_getlocal(thread, &ar, 1, 2, ..)` until the first unnamed slot:
        one line per named local. */
    static method AddLocalLines(text: string, ghost ls: seq<string>, names: seq<string>)
      returns (text': string, ghost ls': seq<string>)
      requires SENTINEL in names && text == Unlines(ls)
      ensures ls' == ls + LocalLines(names[..NamedLocalCount(names)]) && text' == Unlines(ls')
    {
      text', ls' := text, ls;
      ghost var k := NamedLocalCount(names);
      var numLocals := 0;
      while names[numLocals] != SENTINEL
        invariant 0 <= numLocals <= k
        invariant ls' == ls + LocalLines(names[..numLocals])
        invariant text' == Unlines(ls')
        decreases k - numLocals
      {
        if numLocals == k { assert false; }
        text', ls' := AddLine(text', ls', LocalLine(names[numLocals], numLocals + 1));
        LocalLinesNext(names, numLocals);
        AppendAssoc(ls, LocalLines(names[..numLocals]), [LocalLine(names[numLocals], numLocals + 1)]);
        numLocals := numLocals + 1;
      }
    }

    /** The line list PrintExpression assembles, step by step, is the
        wrapper's. */
    static lemma WrapperLinesParts(f: Frame, expression: string, ls2: seq<string>, ls3: seq<string>,
                                   ls5: seq<string>, ls6: seq<string>, ls8: seq<string>)
      requires LocalsEnd(f)
      requires ls2 == WRAPPER_HEAD
      requires ls3 == ls2 + UpvalueLines(ProbedUpvalueNames(f))
      requires ls5 == ls3 + WRAPPER_INNER
      requires ls6 == ls5 + LocalLines(f.localNames[..NamedLocalCount(f.localNames)])
      requires ls8 == ls6 + ["  return " + expression, "end"]
      ensures ls8 == WrapperLines(ProbedUpvalueNames(f), f.localNames, expression)
    {
    }

    /** One `printExpression << l << std::endl`. */
    static method AddLine(text: string, ghost ls: seq<string>, l: string) returns (text': string, ghost ls': seq<string>)
      requires text == Unlines(ls)
      ensures ls' == ls + [l] && text' == Unlines(ls')
    {
      text' := text + l + "\n";
      ls' := ls + [l];
      assert ls'[..|ls'| - 1] == ls;
    }

    /** Evaluates `expression` in the paused frame with the hooks switched
        off, prints the outcome, then restores the stack depth and the mode
        and recomputes the hooks.  `printResult` is accepted and, as in the
        source, not used. */
    method EvaluateExpression(out: OutStream, expression: string, vm: Vm, printResult: bool := false)
      returns (ghost hookDuringEvaluation: HookSetting)
      requires Valid() && Paused(vm)
      modifies this, thread, out
      ensures Valid() && Keeps() && state == old(state) && step == old(step)
      ensures thread.hook == Trampoline(Mask()) && thread.top == old(thread.top)
      ensures out.written == old(out.written) + EvalOutput(vm.evaluate(WrapperText(vm.frames[0], expression)))
      ensures out.good == old(out.good)
      ensures hookDuringEvaluation == Trampoline(0)
    {
      var savedState := state;
      state := EvaluatingExpression;
      UpdateHooks();
      var stackSize := thread.top;
      var f := GetStack(vm).value;
      var chunk, numUpValues := WrapperChunk(f, expression);
      // the upvalue values, the locals and the loaded chunk are on the stack
      thread.SetTop(stackSize + numUpValues + NamedLocalCount(f.localNames) + 1);
      hookDuringEvaluation := thread.hook;
      var outcome := vm.evaluate(chunk);
      WriteOutcome(out, outcome);
      thread.SetTop(stackSize);
      state := savedState;
      UpdateHooks();
    }

    /** The result marker once the chunk ran, then the error line of a
        failure. */
    static method WriteOutcome(out: OutStream, outcome: EvalOutcome)
      modifies out
      ensures out.written == old(out.written) + EvalOutput(outcome) && out.good == old(out.good)
    {
      if !outcome.LoadFailed? && !outcome.CallFailed? {
        out.Write(">>> ");
      }
      if !outcome.Printed? {
        out.Write(ErrorLine(outcome.message));
      }
    }

    // -------------------------------------------------------------------
    // The REPL

    /** A handler of the command table. */
    method Execute(c: Command, output: OutStream, args: seq<char>, vm: Vm, ghost input: InStream, ghost command: string)
      returns (shouldBreak: bool)
      requires Valid() && Paused(vm) && state == Debugging
      modifies this, thread, output
      ensures Valid() && Keeps() && thread.top == old(thread.top) && output.good == old(output.good)
      ensures shouldBreak == ExitsRepl(c)
      ensures SessionOf(input, output, command, args)
           == Handle(old(SessionOf(input, output, command, args)), c, args, Context(vm, output.good))
    {
      if ExitsRepl(c) {
        ExecuteControl(c, output, vm, input, command, args);
        shouldBreak := true;
      } else {
        ExecuteDisplay(c, output, args, vm, input, command);
        shouldBreak := false;
      }
    }

    /** The handlers that leave the REPL: continue, step, next, return. */
    method ExecuteControl(c: Command, output: OutStream, vm: Vm, ghost input: InStream, ghost command: string,
                          ghost args: seq<char>)
      requires Valid() && Paused(vm) && state == Debugging && ExitsRepl(c)
      modifies this, output
      ensures Valid() && Keeps() && output.good == old(output.good)
      ensures SessionOf(input, output, command, args)
           == Handle(old(SessionOf(input, output, command, args)), c, args, Context(vm, output.good))
    {
      match c
      case ContinueCmd =>
        output.Write("continue\n");
        Continue();
      case StepCmd =>
        Step(vm);
      case NextCmd =>
        Next();
      case ReturnCmd =>
        output.Write("step to return\n");
        StepToReturn(vm);
    }

    /** The handlers that stay in the REPL: list, where, expression. */
    method ExecuteDisplay(c: Command, output: OutStream, args: seq<char>, vm: Vm, ghost input: InStream, ghost command: string)
      requires Valid() && Paused(vm) && state == Debugging && !ExitsRepl(c)
      modifies this, thread, output
      ensures Valid() && Keeps() && thread.top == old(thread.top) && output.good == old(output.good)
      ensures SessionOf(input, output, command, args)
           == Handle(old(SessionOf(input, output, command, args)), c, args, Context(vm, output.good))
    {
      match c
      case ListCmd =>
        PrintSource(output, vm);
      case WhereCmd =>
        PrintBacktrace(output, vm);
      case ExpressionCmd =>
        ghost var h := EvaluateExpression(output, ExpressionArg(args), vm);
    }

    /** The REPL: discards the step target, enters Debugging and runs the
        prompt/read/dispatch loop over `input` until a command exits it or a
        stream fails; the token and the argument buffer carry over from one
        pass to the next. */
    method EnterDebugger(input: InStream, output: OutStream, vm: Vm)
      requires Valid() && Paused(vm)
      modifies this, thread, input, output
      ensures Valid() && Keeps() && thread.top == old(thread.top) && output.good == old(output.good)
      ensures var r := Run(EnterSession(old(thread.hook), old(input.lines), input.endsWithNewline, old(input.good),
                               old(output.written)),
                           Context(vm, output.good));
        SessionOf(input, output, r.command, r.argBuf) == r
    {
      step := None;
      state := Debugging;
      var command := "";
      var argBuf := new char[ARG_BUF_SIZE](_ => '\0');
      assert argBuf[..] == InitialArgs();
      ghost var ctx := Context(vm, output.good);
      ghost var goal := Run(SessionOf(input, output, command, argBuf[..]), ctx);
      while state == Debugging && input.good && output.good
        invariant Valid() && Keeps() && thread.top == old(thread.top) && output.good == old(output.good)
        invariant Context(vm, output.good) == ctx
        invariant Run(SessionOf(input, output, command, argBuf[..]), ctx) == goal
        decreases Measure(SessionOf(input, output, command, argBuf[..]))
      {
        ghost var before := SessionOf(input, output, command, argBuf[..]);
        IterateProgress(before, ctx);
        command := ReadCommand(input, output, command, argBuf);
        var shouldBreak := DispatchCommand(input, output, vm, command, argBuf[..]);
        assert SessionOf(input, output, command, argBuf[..]) == Iterate(before, ctx);
        if shouldBreak {
          break;
        }
      }
    }

    /** The prompt and the read of one pass of the REPL loop. */
    method ReadCommand(input: InStream, output: OutStream, command: string, argBuf: array<char>)
      returns (command': string)
      modifies input, output, argBuf
      ensures SessionOf(input, output, command', argBuf[..])
           == Prompt(old(SessionOf(input, output, command, argBuf[..])))
      ensures output.good == old(output.good)
    {
      output.Write("> ");
      var ok, line := input.ReadCommand(argBuf);
      command' := command;
      if ok {
        command' := line.token;
      }
    }

    /** The dispatch of one pass of the REPL loop; an exiting command is
        followed by UpdateHooks. */
    method DispatchCommand(input: InStream, output: OutStream, vm: Vm, command: string, args: seq<char>)
      returns (shouldBreak: bool)
      requires Valid() && Paused(vm) && state == Debugging
      modifies this, thread, output
      ensures Valid() && Keeps() && thread.top == old(thread.top) && output.good == old(output.good)
      ensures SessionOf(input, output, command, args)
           == Dispatch(old(SessionOf(input, output, command, args)), Context(vm, output.good))
      ensures shouldBreak ==> state != Debugging
      ensures !shouldBreak ==> state == Debugging
    {
      var found := LookupCommand(command);
      if found.Some? {
        shouldBreak := Execute(found.value, output, args, vm, input, command);
        if shouldBreak {
          UpdateHooks();
        }
      } else {
        output.Write("unknown command: " + command + "\n");
        shouldBreak := false;
      }
    }

    // -------------------------------------------------------------------
    // The hook

    /** The debugger ran the REPL on its own streams, after `pre` was
        written, from the state before the call. */
    twostate predicate EnteredAfter(pre: seq<string>, vm: Vm)
      reads this, thread, inStream, outStream
    {
      Paused(vm) &&
      var s := Run(EnterSession(old(thread.hook), old(inStream.lines), old(inStream).endsWithNewline, true,
                                old(outStream.written) + pre),
                   ReplContext(old(functionBreakpoints.Keys) != {}, old(lineBreakpoints.Keys) != {}, vm, true));
      && state == s.mode && step == s.step && thread.hook == s.hook
      && inStream.lines == s.input && inStream.good == s.inGood && outStream.written == s.output
    }

    /** The breakpoints are the same objects, and only the counter of the
        one for `t`, if any, moved by one. */
    twostate predicate Counted(t: Option<Target>)
      reads this, breakpoints
    {
      && breakpoints == old(breakpoints)
      && forall i :: 0 <= i < |breakpoints| ==>
           breakpoints[i].hitCount ==
             if t == Some(breakpoints[i].target) then (old(breakpoints[i].hitCount) + 1) % UINT32_LIMIT
             else old(breakpoints[i].hitCount)
    }

    /** The reaction to `ar` in the state before the call. */
    twostate function Reaction(ar: HookEvent): Reaction
      reads this
    {
      Classify(old(state), old(step), old(functionBreakpoints.Keys), old(lineBreakpoints.Keys), ar)
    }

    /** What DebugHook does with one event, in terms of the state before it. */
    twostate predicate HookHandled(ar: HookEvent, vm: Vm)
      reads this, thread, inStream, outStream, breakpoints
    {
      var r := Reaction(ar);
      var live := old(inStream.good) && old(outStream.good) && r != Ignore;
      && thread.top == old(thread.top)
      && Counted(if live then HitTarget(r) else None)
      && if live then EnteredAfter(HookOutput(r, vm), vm)
         else
           && state == old(state) && step == old(step) && thread.hook == old(thread.hook)
           && inStream.lines == old(inStream.lines) && inStream.good == old(inStream.good)
           && outStream.written == old(outStream.written)
    }

    /** `DebugHook`: gives up on bad streams, then checks the step target,
        then the event kind, counting a hit on a matching breakpoint, and
        enters the REPL on the debugger's own streams. */
    method DebugHook(ar: HookEvent, vm: Vm)
      requires Valid() && Paused(vm)
      modifies this, thread, inStream, outStream, breakpoints
      ensures Valid() && Keeps()
      ensures HookHandled(ar, vm)
    {
      if !inStream.good || !outStream.good {
        return;
      }
      if state == Stepping {
        var matched := step.Some? &&
          (Equals(step.value, LineTarget(ar.shortSrc, ar.currentLine)) || Equals(step.value, AnyLine()));
        if matched {
          StopAtStep(ar, vm);
          return;
        }
      }
      match ar.event
      case Call | TailCall =>
        if ar.name.Some? {
          var bp := GetBreakpointForFunction(ar.name.value);
          if bp != null {
            Stop(bp, ar, vm);
          }
        }
      case Line =>
        var bp := GetBreakpointForLine(ar.shortSrc, ar.currentLine);
        if bp != null {
          Stop(bp, ar, vm);
        }
      case Count =>
      case Return =>
        if state == Stepping && step.Some? && ar.name.Some? && Equals(step.value, FunctionTarget(ar.name.value)) {
          StopAtReturn(ar, vm);
        }
    }

    /** The step target matched: list the source and enter the REPL. */
    method StopAtStep(ar: HookEvent, vm: Vm)
      requires Valid() && Paused(vm) && inStream.good && outStream.good
      requires Classify(state, step, functionBreakpoints.Keys, lineBreakpoints.Keys, ar) == StepStop
      modifies this, thread, inStream, outStream
      ensures Valid() && Keeps() && HookHandled(ar, vm)
    {
      PrintAndEnter(vm, false);
    }

    /** The stepped-out-of function returned: print the backtrace and the
        source, and enter the REPL. */
    method StopAtReturn(ar: HookEvent, vm: Vm)
      requires Valid() && Paused(vm) && inStream.good && outStream.good
      requires Classify(state, step, functionBreakpoints.Keys, lineBreakpoints.Keys, ar) == ReturnStop
      modifies this, thread, inStream, outStream
      ensures Valid() && Keeps() && HookHandled(ar, vm)
    {
      PrintAndEnter(vm, true);
    }

    /** A breakpoint hit: count it, print the backtrace and the source, and
        enter the REPL. */
    method Stop(bp: Breakpoint, ar: HookEvent, vm: Vm)
      requires Valid() && Paused(vm) && inStream.good && outStream.good && bp in breakpoints
      requires Classify(state, step, functionBreakpoints.Keys, lineBreakpoints.Keys, ar) !in {Ignore, StepStop}
      requires HitTarget(Classify(state, step, functionBreakpoints.Keys, lineBreakpoints.Keys, ar)) == Some(bp.target)
      modifies this, thread, inStream, outStream, bp
      ensures Valid() && Keeps() && HookHandled(ar, vm)
    {
      bp.Hit();
      CountedHit(bp);
      PrintAndEnter(vm, true);
    }

    /** The stops share the shape of HookHandled for a live reaction. */
    twostate lemma Handled(ar: HookEvent, vm: Vm)
      requires old(inStream.good) && old(outStream.good) && Reaction(ar) != Ignore
      requires thread.top == old(thread.top) && Counted(HitTarget(Reaction(ar)))
      requires EnteredAfter(HookOutput(Reaction(ar), vm), vm)
      ensures HookHandled(ar, vm)
    {
    }

    /** The listing of a stop, optionally after the backtrace, then the REPL
        on the debugger's own streams. */
    method PrintAndEnter(vm: Vm, withBacktrace: bool)
      requires Valid() && Paused(vm) && inStream.good && outStream.good
      modifies this, thread, inStream, outStream
      ensures Valid() && Keeps() && thread.top == old(thread.top)
      ensures EnteredAfter(if withBacktrace then Backtrace(vm.frames) + SourceText(vm, 4) else SourceText(vm, 4), vm)
    {
      ghost var w0 := outStream.written;
      if withBacktrace {
        PrintBacktrace(outStream, vm);
      }
      ghost var w1 := outStream.written;
      PrintSource(outStream, vm);
      ghost var w2 := outStream.written;
      if withBacktrace {
        AppendAssoc(w0, Backtrace(vm.frames), SourceText(vm, 4));
      }
      EnterDebugger(inStream, outStream, vm);
    }

    /** After `bp.Hit()`, only the counter of `bp`'s target moved. */
    twostate lemma CountedHit(bp: Breakpoint)
      requires old(Valid()) && bp in old(breakpoints) && breakpoints == old(breakpoints)
      requires bp.hitCount == (old(bp.hitCount) + 1) % UINT32_LIMIT
      requires forall b :: b in breakpoints && b != bp ==> b.hitCount == old(b.hitCount)
      ensures Counted(Some(bp.target))
    {
      forall i | 0 <= i < |breakpoints|
        ensures breakpoints[i].hitCount ==
             if Some(bp.target) == Some(breakpoints[i].target) then (old(breakpoints[i].hitCount) + 1) % UINT32_LIMIT
             else old(breakpoints[i].hitCount)
      {
        if breakpoints[i].target == bp.target {
          EntryIdentifies(breakpoints, old(functionBreakpoints), old(lineBreakpoints), i, bp);
        }
      }
    }
  }

  /** Each listed breakpoint is the entry filed under its own target, so
      the target identifies the object. */
  lemma EntryIdentifies(bs: seq<Breakpoint>, fb: map<string, Breakpoint>, lb: map<(string, int), Breakpoint>,
                         i: nat, b: Breakpoint)
    requires Consistent(bs, fb, lb) && i < |bs| && b in bs && bs[i].target == b.target
    ensures bs[i] == b
  {
    var j :| 0 <= j < |bs| && bs[j] == b;
    assert Entry(fb, lb, bs[j].target) == b;
  }

  /** `sDebuggerMap` and `DebugHookTrampoline`: the process-wide table from
      threads to their debuggers. */
  class DebuggerRegistry {
    var hooks: map<ThreadId, LuaDebugger>

    constructor ()
      ensures hooks == map[]
    {
      hooks := map[];
    }

    /** Forwards a hook event to the thread's debugger, if it has one. */
    method Trampoline(id: ThreadId, ar: HookEvent, vm: Vm)
      requires id in hooks ==> hooks[id].Valid() && Paused(vm)
      modifies if id in hooks then hooks[id].Footprint() else {}
      ensures hooks == old(hooks)
      ensures id in hooks ==> hooks[id].Valid() && hooks[id].HookHandled(ar, vm)
    {
      if id in hooks {
        var d := hooks[id];
        d.DebugHook(ar, vm);
      }
    }
  }
}
