/** What the debugger sees of the Lua VM and of its streams.  The Lua C API
    (lua_getstack, lua_getinfo, lua_getupvalue, lua_getlocal, luaL_loadstring,
    lua_pcall, print) is not modelled: a paused thread is described by plain
    values passed in, and only the two pieces of thread state the debugger
    changes (the stack depth and the installed hook) are mutable. */
module LuaEnv {
  import opened Base

  /** Identity of a `lua_State*`, the key of the hook registry. */
  type ThreadId = nat

  /** The hook event codes LUA_HOOKCALL .. LUA_HOOKTAILCALL. */
  datatype HookEventKind = Call | Return | Line | Count | TailCall

  /** LUA_MASKCALL, LUA_MASKRET, LUA_MASKLINE, LUA_MASKCOUNT: 1 << event code. */
  const MASK_CALL: bv32 := 1
  const MASK_RET: bv32 := 2
  const MASK_LINE: bv32 := 4
  const MASK_COUNT: bv32 := 8

  /** The event kinds a hook installed with `mask` is called for (the call
      mask also covers tail calls). */
  predicate Delivers(mask: bv32, kind: HookEventKind)
  {
    match kind
    case Call => mask & MASK_CALL != 0
    case TailCall => mask & MASK_CALL != 0
    case Return => mask & MASK_RET != 0
    case Line => mask & MASK_LINE != 0
    case Count => mask & MASK_COUNT != 0
  }

  /** The `lua_Debug` record a hook receives, after `lua_getinfo(.., "Snul", ..)`:
      the event, `short_src`, `currentline` and `name` (NULL is None). */
  datatype HookEvent = HookEvent(event: HookEventKind, shortSrc: string, currentLine: int, name: Option<string>)

  /** A value as `lua_getupvalue` sees it: a closure with its upvalues
      (named by the compiler, or "" for a C function), or anything else. */
  datatype UpvalueValue = Plain | Closure(upvalues: seq<Upvalue>)

  /** One upvalue of a closure: its name and the value it holds. */
  datatype Upvalue = Upvalue(name: string, value: UpvalueValue)

  /** `lua_getupvalue(L, funcindex, n)` on the value at `funcindex`: the
      n-th upvalue (1-based), which it pushes, or NULL (None) when the value
      is not a closure or has fewer than n upvalues. */
  function GetUpvalue(v: UpvalueValue, n: int): (r: Option<Upvalue>)
    ensures r.Some? <==> v.Closure? && 1 <= n <= |v.upvalues|
    ensures r.Some? ==> r.value == v.upvalues[n - 1]
  {
    if v.Closure? && 1 <= n <= |v.upvalues| then Some(v.upvalues[n - 1]) else None
  }

  /** One stack frame of the paused thread, as `lua_getstack` and
      `lua_getinfo` describe it: the running function's upvalues (what
      `lua_getinfo(.., "f", ..)` pushes) and the names `lua_getlocal`
      (1, 2, ..) reports for its stack slots. */
  datatype Frame = Frame(
    name: Option<string>,
    source: Option<string>,
    shortSrc: string,
    currentLine: int,
    upvalues: seq<Upvalue>,
    localNames: seq<string>)

  /** Result of running a synthesized expression chunk in the VM: which of
      `luaL_loadstring`, the two `lua_pcall`s of the chunk, or the `lua_pcall`
      of `print` failed, and the error value's text if it has one. */
  datatype EvalOutcome =
    | LoadFailed(message: Option<string>)
    | CallFailed(message: Option<string>)
    | PrintFailed(message: Option<string>)
    | Printed

  /** A paused VM: its frames (level 0 first), the source files readable on
      disk (path to lines), and how it evaluates a chunk of Lua text. */
  datatype Vm = Vm(frames: seq<Frame>, files: map<string, seq<string>>, evaluate: string -> EvalOutcome)

  /** `lua_getstack(thread, level, ar)`: the frame at `level`, if any. */
  function GetStack(vm: Vm, level: nat := 0): (r: Option<Frame>)
    ensures r.Some? <==> level < |vm.frames|
    ensures r.Some? ==> r.value == vm.frames[level]
  {
    if level < |vm.frames| then Some(vm.frames[level]) else None
  }

  /** The hook of a thread, as last set by `lua_sethook`. */
  datatype HookSetting = NoHook | Trampoline(mask: bv32)

  /** The mutable part of a Lua thread that the debugger touches. */
  class LuaThread {
    const id: ThreadId
    var top: nat
    var hook: HookSetting

    constructor (id: ThreadId, top: nat)
      ensures this.id == id && this.top == top && hook == NoHook
    {
      this.id := id;
      this.top := top;
      hook := NoHook;
    }

    /** `lua_sethook(thread, f, mask, 0)`. */
    method SetHook(h: HookSetting)
      modifies this
      ensures hook == h && top == old(top)
    {
      hook := h;
    }

    /** `lua_settop(thread, n)`: the stack depth, nothing else. */
    method SetTop(n: nat)
      modifies this
      ensures top == n && hook == old(hook)
    {
      top := n;
    }
  }

  /** One command line of the REPL: the whitespace-delimited token read by
      `>>` and the rest of the line read by `getline`. */
  datatype InputLine = InputLine(token: string, rest: string)

  /** What `getline(buf, n)` leaves in a buffer of n = |buf| characters
      once it has extracted `r`: at most n - 1 of its characters, then a
      '\0'; the bytes after that '\0' are untouched.  A failed read stores
      the '\0' alone. */
  function GetlineStore(buf: seq<char>, r: string): (b: seq<char>)
    ensures |b| == |buf|
  {
    if |buf| == 0 then buf
    else
      var w := r[..Min(|r|, |buf| - 1)] + ['\0'];
      w + buf[|w|..]
  }

  /** The C string at `buf + i`: the characters up to the first '\0', or to
      the end of the buffer. */
  function CStringAt(buf: seq<char>, i: nat): string
    decreases |buf| - i
  {
    if i >= |buf| || buf[i] == '\0' then "" else [buf[i]] + CStringAt(buf, i + 1)
  }

  lemma {:induction false} CStringAtTerminated(buf: seq<char>, i: nat, k: nat)
    requires i <= k < |buf| && buf[k] == '\0'
    requires forall j :: i <= j < k ==> buf[j] != '\0'
    ensures CStringAt(buf, i) == buf[i..k]
    decreases k - i
  {
    if i < k {
      CStringAtTerminated(buf, i + 1, k);
      assert buf[i..k] == [buf[i]] + buf[i + 1..k];
    }
  }

  /** The C string at `buf + i` reads nothing before index i. */
  lemma {:induction false} CStringAtFrom(a: seq<char>, b: seq<char>, i: nat)
    requires |a| == |b| && i <= |a| && a[i..] == b[i..]
    ensures CStringAt(a, i) == CStringAt(b, i)
    decreases |a| - i
  {
    if i < |a| {
      assert a[i] == a[i..][0] && b[i] == b[i..][0];
      assert a[i + 1..] == a[i..][1..] && b[i + 1..] == b[i..][1..];
      CStringAtFrom(a, b, i + 1);
    }
  }

  /** After a read whose rest `r` is non-empty and fits, the C string at
      `buf + 1` is `r` without its first character. */
  lemma GetlineArgs(buf: seq<char>, r: string)
    requires 0 < |r| < |buf| && '\0' !in r
    ensures CStringAt(GetlineStore(buf, r), 1) == r[1..]
  {
    var b := GetlineStore(buf, r);
    assert b[..|r|] == r && b[|r|] == '\0';
    forall j | 1 <= j < |r|
      ensures b[j] != '\0'
    {
      assert b[j] == r[j];
    }
    CStringAtTerminated(b, 1, |r|);
    assert b[1..|r|] == r[1..];
  }

  /** A read with an empty rest, or a failed read, overwrites only the first
      byte: the C string at `buf + 1` is what it was. */
  lemma GetlineEmptyKeepsArgs(buf: seq<char>)
    requires |buf| > 0
    ensures CStringAt(GetlineStore(buf, ""), 1) == CStringAt(buf, 1)
  {
    CStringAtFrom(GetlineStore(buf, ""), buf, 1);
  }

  /** An input stream holding the lines still to be read, and whether its
      text ends with a newline (otherwise its last line runs into the end of
      the input). */
  class InStream {
    var lines: seq<InputLine>
    var good: bool
    const endsWithNewline: bool

    constructor (lines: seq<InputLine>, endsWithNewline: bool)
      ensures this.lines == lines && this.endsWithNewline == endsWithNewline && good
    {
      this.lines := lines;
      this.endsWithNewline := endsWithNewline;
      good := true;
    }

    /** `in >> command; in.getline(buf, sizeof buf)`: the next line, or a
        failure that leaves the stream not good once no line is left.
        Reading a last line that has no newline reaches the end of the input,
        which sets `eofbit`: the read succeeds, and the stream is no longer
        good.  `getline` stores the rest of the line, or nothing after a
        failure, in `buf`. */
    method ReadCommand(buf: array<char>) returns (ok: bool, line: InputLine)
      modifies this, buf
      ensures ok <==> old(good) && old(lines) != []
      ensures ok ==> line == old(lines)[0] && lines == old(lines)[1..]
                     && good == (lines != [] || endsWithNewline)
      ensures !ok ==> lines == old(lines) && !good
      ensures buf[..] == GetlineStore(old(buf[..]), if ok then line.rest else "")
    {
      if good && lines != [] {
        ok, line := true, lines[0];
        lines := lines[1..];
        good := lines != [] || endsWithNewline;
      } else {
        ok, line := false, InputLine("", "");
        good := false;
      }
      StoreLine(buf, line.rest);
    }

    /** The store of `getline(buf, buf.Length)` once it has extracted `r`. */
    static method StoreLine(buf: array<char>, r: string)
      modifies buf
      ensures buf[..] == GetlineStore(old(buf[..]), r)
    {
      if buf.Length == 0 {
        return;
      }
      var n := Min(|r|, buf.Length - 1);
      var i := 0;
      while i < n
        invariant 0 <= i <= n
        invariant forall j :: 0 <= j < i ==> buf[j] == r[j]
        invariant forall j :: i <= j < buf.Length ==> buf[j] == old(buf[j])
      {
        buf[i] := r[i];
        i := i + 1;
      }
      buf[n] := '\0';
      ghost var w := r[..n] + ['\0'];
      assert forall j :: 0 <= j < buf.Length ==> buf[j] == (w + old(buf[..])[|w|..])[j];
    }
  }

  /** An output stream: everything written to it, one string per output
      statement (no string spans two statements). */
  class OutStream {
    var written: seq<string>
    var good: bool

    constructor ()
      ensures written == [] && good
    {
      written := [];
      good := true;
    }

    method Write(s: string)
      modifies this
      ensures written == old(written) + [s] && good == old(good)
    {
      written := written + [s];
    }
  }
}
