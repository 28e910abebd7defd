# Lua debugger and property-tree marshaler

This project models two parts of the engine's Lua support in Dafny and
proves properties of them.

- **The source-level debugger**, `LuaDebugger`, with its breakpoint
  classes and the process-wide `sDebuggerMap`. The debugger is a
  sequential state machine. Its state is:
  - a mode: Idle, Debugging, Stepping, EvaluatingExpression or Continuing;
  - an ordered set of function breakpoints and an ordered set of line
    breakpoints;
  - the `_breakpoints` display list over both sets;
  - at most one transient step breakpoint.

  It installs a Lua hook whose mask depends on that state. It classifies
  hook events into "stop", "count a hit and stop" and "ignore". It runs a
  read-eval-print loop over a command table, lists source windows, prints
  backtraces, and evaluates expressions by synthesising a wrapper chunk.
- **The tree ↔ Lua-table marshaler** in `luaUtils.cpp`:
  - `Lua_ToPTree` turns the table on top of the Lua stack into a Boost
    property tree. Its string keys become sorted named children. Its array
    elements become `""` children.
  - `Lua_PushPTreeAsTable` and `Lua_PushPTreeAsValue` go the other way.
    Leaves are probed in order: boolean (case-insensitive), then number,
    then string.

The Lua VM is not modelled. These parts of it are plain values:

- the stack frames (`LuaEnv.Frame`): the running function's upvalues (each
  a name and a value, the value a closure with upvalues of its own or
  anything else) and the names of its stack slots;
- the readable source files;
- the outcome of loading and running a chunk (`LuaEnv.Vm`);
- the hook records (`LuaEnv.HookEvent`).

The streams are small classes. `LuaEnv.InStream` holds the remaining input
lines as (token, rest) pairs, and whether the input ends with a newline.
Its read stores the rest of the line in the REPL's 512-character argument
buffer, an array that keeps its bytes from one read to the next.
`LuaEnv.OutStream` holds the sequence of strings written so far. Each
output statement is one string, even when it chains several `<<` (the frame
line of `PrintStackFrame` is one string). Listing rows are the exception:
each of their five insertions is a string of its own.

Modules:

- `Base` (base.dfy): decimal text for integers, the byte-wise string order
  `std::string::operator<` uses, and case-insensitive comparison.
- `Breakpoints` (breakpoint.dfy): `LuaBreakpoint`, `LuaBreakpoint_Function`
  and `LuaBreakpoint_Line`.
- `LuaEnv` (lua_env.dfy): the VM inputs, the thread's hook slot and stack
  top, and the streams.
- `DebuggerSpec` (debugger_spec.dfy): value-level functions the debugger is
  proved against. They cover the hook mask, event classification, the
  display list, the listing and line prefix, the wrapper chunk, and the
  REPL as a function over sessions.
- `Debugger` (debugger.dfy): the class `LuaDebugger` and the registry
  `DebuggerRegistry` (`sDebuggerMap` plus `DebugHookTrampoline`).
- `LuaUtils` (lua_utils.dfy):
  - the tree (`Tree`, `put`, `put_child`, `push_back`, `sort`);
  - the Lua value;
  - the conversion functions and the methods that run their loops.
- `LuaUtilsSort`, `LuaUtilsToTree` and `LuaUtilsPush`: lemmas about the sort,
  `Lua_ToPTree`, and the push direction together with the round trip.

## Model

| member | source | states |
|---|---|---|
| Breakpoints.Breakpoint.Function | wrapper/util/lua/luaDebugger_LuaBreakpoint.hpp:17-18 | a new function breakpoint targets the name and has hit count 0 |
| Breakpoints.Breakpoint.Line | wrapper/util/lua/luaDebugger_LuaBreakpoint.hpp:17-18 | a new line breakpoint targets (file, line) and has hit count 0 |
| Breakpoints.Breakpoint.Copy | wrapper/util/lua/luaDebugger_LuaBreakpoint.hpp:20-21 | a copy has the same target and the same hit count |
| Breakpoints.Breakpoint.Hit | wrapper/util/lua/luaDebugger_LuaBreakpoint.hpp:27-30 | the counter goes up by one (as a 32-bit unsigned value) and nothing else changes |
| Breakpoints.EqualsIsIdentity | wrapper/util/lua/luaDebugger_LuaBreakpoint.hpp:48-55 | two breakpoints compare equal iff they have the same kind and the same name, or the same file and line; a function breakpoint never equals a line breakpoint |
| Breakpoints.FunctionOrderIsStrict | wrapper/util/lua/luaDebugger_LuaBreakpoint.hpp:57-59 | the order by name is irreflexive and transitive, and two function breakpoints are unordered iff they are equal |
| Breakpoints.LineOrderIsStrict | wrapper/util/lua/luaDebugger_LuaBreakpoint.hpp:85-91 | the lexicographic (file, line) order is irreflexive and transitive, and two line breakpoints are unordered iff they are equal |
| Breakpoints.AnyLineEquals | wrapper/util/lua/luaDebugger_LuaBreakpoint.hpp:73-83 | a target equals the wildcard iff it is a line target with file "ANY" and line -1 |
| LuaEnv.LuaThread.SetHook | wrapper/util/lua/luaDebugger.cpp:550 | installs the hook and keeps the stack top |
| LuaEnv.InStream.ReadCommand | wrapper/util/lua/luaDebugger.cpp:149-150 | a read succeeds iff the stream is good and has a line; success consumes it and leaves the stream good iff another line follows or the input ends with a newline (reaching the end sets `eofbit`); failure marks the stream not good and consumes nothing; the buffer then holds what `getline` stores for the rest, or for nothing after a failure |
| LuaEnv.InStream.StoreLine | wrapper/util/lua/luaDebugger.cpp:150 | the buffer's first characters become the rest of the line, cut to one less than the buffer's size, then a '\0'; the bytes after it are kept |
| LuaEnv.GetlineArgs | wrapper/util/lua/luaDebugger.cpp:118-121 | after a read of a non-empty rest that fits, the C string at `args + 1` is the rest without its first character |
| LuaEnv.GetlineEmptyKeepsArgs | wrapper/util/lua/luaDebugger.cpp:118-121 | after a read with an empty rest, or a failed read, the C string at `args + 1` is unchanged |
| LuaEnv.OutStream.Write | wrapper/util/lua/luaDebugger.cpp:146 | appends one string and keeps the stream state |
| DebuggerSpec.HookMaskBits | wrapper/util/lua/luaDebugger.cpp:533-551 | the mask is 0 while an expression is evaluated; otherwise it has CALL iff a function breakpoint is set, LINE iff a line breakpoint is set or the debugger steps, RET iff it steps, and never COUNT |
| DebuggerSpec.AddBreakpointProperties | wrapper/util/lua/luaDebugger.cpp:422-431 | adding keeps the display list duplicate-free and adds exactly the new target; a new target goes to the end; adding twice is adding once |
| DebuggerSpec.RemoveFirstAt | wrapper/util/lua/luaDebugger.cpp:433-447 | removing erases the first occurrence and keeps the others in order |
| DebuggerSpec.RemoveAbsent | wrapper/util/lua/luaDebugger.cpp:433-447 | removing an absent target changes nothing |
| DebuggerSpec.RemoveFirstMembers | wrapper/util/lua/luaDebugger.cpp:472-486 | on a duplicate-free list, the members left are exactly the old ones except the target |
| DebuggerSpec.RemoveFirstDistinct | wrapper/util/lua/luaDebugger.cpp:472-486 | removing keeps the list duplicate-free and shortens it by one iff the target was present |
| DebuggerSpec.RemoveUndoesAdd | wrapper/util/lua/luaDebugger.cpp:422-447 | unsetting a freshly set target restores the display list |
| DebuggerSpec.NextStopsOnAnyEvent | wrapper/util/lua/luaDebugger.cpp:569-583 | with the wildcard armed, every event, of any kind, is a step stop |
| DebuggerSpec.ClassifyCases | wrapper/util/lua/luaDebugger.cpp:565-639 | the exact condition for each reaction: a step stop is checked before the event kind; calls and tail calls hit a named function breakpoint; lines hit a line breakpoint; a return stops only with the step target on its function; instruction counts do nothing |
| DebuggerSpec.StopsAreDelivered | wrapper/util/lua/luaDebugger.cpp:533-639 | every hit, every return stop, and every step stop on a line or return event, is for an event kind the installed mask delivers |
| DebuggerSpec.ReturnTargetStops | wrapper/util/lua/luaDebugger.cpp:186-202 | step-to-return in a named frame never stops as a step and stops at a return iff the returning function has the frame's name; in an unnamed frame it reacts to every event as Step does |
| DebuggerSpec.HitTarget | wrapper/util/lua/luaDebugger.cpp:588-616 | a counter moves iff the reaction is a function or line hit |
| DebuggerSpec.HitTargetIsSet | wrapper/util/lua/luaDebugger.cpp:569-616 | the counter that moves belongs to a breakpoint that is set and matches the event; a step stop moves none |
| DebuggerSpec.BacktraceShape | wrapper/util/lua/luaDebugger.cpp:228-237 | the backtrace prints, for each level k in order, "(k) " and then the frame's line |
| DebuggerSpec.SixDigitLineNumberOverreads | wrapper/util/lua/luaDebugger.cpp:251-262 | the line number 100000 passes the length assert but indexes past the five-blank spacer |
| DebuggerSpec.PaddingIsBlank | wrapper/util/lua/luaDebugger.cpp:248-263 | the padding after a line number is 5 - digits blanks, and none when the number is wider |
| DebuggerSpec.LinePrefixShape | wrapper/util/lua/luaDebugger.cpp:248-263 | a line prefix is "-> " or three blanks, then the digits, then blanks to column 8 |
| DebuggerSpec.RowTextIsLine | wrapper/util/lua/luaDebugger.cpp:294 | a printed row is its prefix, its text and a newline |
| DebuggerSpec.Render | wrapper/util/lua/luaDebugger.cpp:293-310 | each row is written as five insertions |
| DebuggerSpec.RenderConcat | wrapper/util/lua/luaDebugger.cpp:293-310 | rendering distributes over concatenation of rows |
| DebuggerSpec.ListingCounters | wrapper/util/lua/luaDebugger.cpp:283-297 | for a line inside the file, the skip counter leaves max(1, cur - context) - 1 lines and the context loop prints up to line cur - 1 |
| DebuggerSpec.ListingInFile | wrapper/util/lua/luaDebugger.cpp:283-310 | the listing is the lines before, the arrowed current line, and at most context lines after it, cut at the end of the file |
| DebuggerSpec.ListingIsWindow | wrapper/util/lua/luaDebugger.cpp:268-312 | for a line inside the file, the listing is lines max(1, cur - context) .. min(n, cur + context), numbered in order, with the arrow on cur only |
| DebuggerSpec.NamedLocalCount | wrapper/util/lua/luaDebugger.cpp:367-376 | the locals enumerated are those before the first "(*temporary)" |
| DebuggerSpec.UpvalueLines | wrapper/util/lua/luaDebugger.cpp:348-357 | one line per name reported, the i-th (from 1) binding that name, or all of `_ENV`, to `upvals[i]` |
| DebuggerSpec.ProbedNamesFirst | wrapper/util/lua/luaDebugger.cpp:345-358 | the loop reports no name iff the frame's function has no upvalue; otherwise it reports the first upvalue's name and goes on probing that upvalue's value |
| DebuggerSpec.ProbedNamesWithoutClosures | wrapper/util/lua/luaDebugger.cpp:345-358 | when no upvalue of the frame holds a closure, the loop reports at most the first upvalue's name |
| DebuggerSpec.SecondUpvalueDropped | wrapper/util/lua/luaDebugger.cpp:345-358 | for a function capturing the numbers `x` then `y`, the loop reports `x` alone and the wrapper lacks the `y` binding |
| DebuggerSpec.IntendedWrapperLayout | wrapper/util/lua/luaDebugger.cpp:341-358 | the corrected wrapper binds every upvalue of the frame's function, the i-th to `upvals[i]` |
| DebuggerSpec.LocalLines | wrapper/util/lua/luaDebugger.cpp:371-376 | one line per named local, numbered from 1 |
| DebuggerSpec.WrapperLayout | wrapper/util/lua/luaDebugger.cpp:343-382 | for any upvalue names, the wrapper chunk has the two environment lines, then `_ENV = upvals[i]` or `_ENV["name"] = upvals[i]` per name, the inner function's header, `local name = locals[i]` per named local, `  return <expr>` and `end` |
| DebuggerSpec.SplitUnlines | wrapper/util/lua/luaDebugger.cpp:343-384 | every wrapper line is newline-terminated, so splitting the text gives the lines back |
| DebuggerSpec.EvalOutputShape | wrapper/util/lua/luaDebugger.cpp:386-415 | ">>> " is written iff the chunk ran, alone iff its result was printed; every failure ends with "**Error: <msg>" or "( no description )" |
| DebuggerSpec.CommandTable | wrapper/util/lua/luaDebugger.cpp:51-131 | exactly the fourteen tokens of the table, long and short forms, are commands |
| DebuggerSpec.IterateProgress | wrapper/util/lua/luaDebugger.cpp:144-150 | every pass of the REPL loop consumes a line or fails the input stream |
| DebuggerSpec.IterateGrows | wrapper/util/lua/luaDebugger.cpp:144-146 | every pass writes at least the prompt |
| DebuggerSpec.RunEnds | wrapper/util/lua/luaDebugger.cpp:144-164 | the REPL ends only once the mode has left Debugging or a stream has failed, and its output only grows |
| DebuggerSpec.RunStopsAtFirstControl | wrapper/util/lua/luaDebugger.cpp:51-165 | display commands and unknown tokens keep the loop going; the first c/s/n/r command ends it in Continuing or Stepping, with the hooks recomputed and the later lines unread, and the input still good iff lines follow or the input ends with a newline |
| DebuggerSpec.PromptArgs | wrapper/util/lua/luaDebugger.cpp:118-121 | the `p` argument of a pass is the rest of its line without the first character when that rest is non-empty and fits, and the previous pass's argument when the rest is empty or the read failed |
| DebuggerSpec.LastLineDispatchedOnce | wrapper/util/lua/luaDebugger.cpp:143-150 | a last line with no newline is dispatched once and ends the loop; with a newline, the failed read after it dispatches the same token again with the same argument |
| DebuggerSpec.StaleExpressionReevaluated | wrapper/util/lua/luaDebugger.cpp:118-150 | "p x+1", a newline and the end of the input evaluate `x+1` twice, each after its prompt |
| DebuggerSpec.RunUntilEndOfInput | wrapper/util/lua/luaDebugger.cpp:144-164 | input with no control command is read to its end, and the REPL stops still Debugging with the input stream failed |
| Debugger.TargetsAppend | wrapper/util/lua/luaDebugger.cpp:422-431 | appending a breakpoint appends its target |
| Debugger.TargetsErase | wrapper/util/lua/luaDebugger.cpp:433-447 | erasing a list element erases its target |
| Debugger.ConsistentKeys | wrapper/util/lua/luaDebugger.h:126-130 | when the sets and the list agree, the list's targets are exactly the keys of the two sets |
| Debugger.ConsistentAddFunction | wrapper/util/lua/luaDebugger.cpp:422-431 | filing a new function breakpoint and appending it keeps the sets and the list in agreement |
| Debugger.ConsistentAddLine | wrapper/util/lua/luaDebugger.cpp:462-470 | filing a new line breakpoint and appending it keeps the sets and the list in agreement |
| Debugger.ConsistentRemoveFunction | wrapper/util/lua/luaDebugger.cpp:433-447 | erasing the name and its list entry keeps the agreement and removes the target's first occurrence |
| Debugger.ConsistentRemoveLine | wrapper/util/lua/luaDebugger.cpp:472-486 | erasing the (file, line) and its list entry keeps the agreement and removes the target's first occurrence |
| Debugger.ConsistentPresent | wrapper/util/lua/luaDebugger.cpp:422-431 | setting a key already present leaves the list as it is |
| Debugger.ConsistentRemoveAbsent | wrapper/util/lua/luaDebugger.cpp:433-447 | unsetting an absent key leaves the list as it is |
| Debugger.AddFunctionEntry | wrapper/util/lua/luaDebugger.cpp:422-431 | the function set gains the name, and the list's targets follow AddBreakpoint; existing entries keep their objects |
| Debugger.AddLineEntry | wrapper/util/lua/luaDebugger.cpp:462-470 | the line set gains the key, and the list's targets follow AddBreakpoint; existing entries keep their objects |
| Debugger.EntryIdentifies | wrapper/util/lua/luaDebugger.h:126-130 | a listed breakpoint is the only list entry with its target |
| Debugger.LuaDebugger.constructor | wrapper/util/lua/luaDebugger.cpp:25-37 | a new debugger is Idle, with no breakpoints and no step target, and is registered for its thread, replacing any earlier entry |
| Debugger.LuaDebugger.Destroy | wrapper/util/lua/luaDebugger.cpp:39-45 | the destructor removes the hook, erases the thread's registration and drops the step target |
| Debugger.LuaDebugger.SetInStream | wrapper/util/lua/luaDebugger.h:34 | replaces the input stream only |
| Debugger.LuaDebugger.SetOutStream | wrapper/util/lua/luaDebugger.h:35 | replaces the output stream only |
| Debugger.LuaDebugger.UpdateHooks | wrapper/util/lua/luaDebugger.cpp:533-551 | installs the trampoline with the mask of the current state |
| Debugger.LuaDebugger.SetFunctionBreakpoint | wrapper/util/lua/luaDebugger.cpp:422-431 | the name joins the set with a fresh counter at 0 if new; the list follows AddBreakpoint; other state is unchanged; the hooks are recomputed |
| Debugger.LuaDebugger.UnsetFunctionBreakpoint | wrapper/util/lua/luaDebugger.cpp:433-447 | the name leaves the set and its entry leaves the list, the others keeping their order; other state is unchanged; the hooks are recomputed |
| Debugger.LuaDebugger.RemoveFunctionEntry | wrapper/util/lua/luaDebugger.cpp:433-447 | the erase of the name and of its list entry keeps the sets and the list in agreement |
| Debugger.LuaDebugger.GetBreakpointForFunction | wrapper/util/lua/luaDebugger.cpp:449-458 | non-null iff the name is set, and then the listed breakpoint for that name |
| Debugger.LuaDebugger.SetLineBreakpoint | wrapper/util/lua/luaDebugger.cpp:462-470 | the (file, line) joins the set with a fresh counter at 0 if new; the list follows AddBreakpoint; other state is unchanged; the hooks are recomputed |
| Debugger.LuaDebugger.UnsetLineBreakpoint | wrapper/util/lua/luaDebugger.cpp:472-486 | the (file, line) leaves the set and its entry leaves the list, the others keeping their order; the hooks are recomputed |
| Debugger.LuaDebugger.RemoveLineEntry | wrapper/util/lua/luaDebugger.cpp:472-486 | the erase of the key and of its list entry keeps the sets and the list in agreement |
| Debugger.LuaDebugger.GetBreakpointForLine | wrapper/util/lua/luaDebugger.cpp:488-498 | non-null iff the (file, line) is set, and then the listed breakpoint for it |
| Debugger.LuaDebugger.FindEntry | wrapper/util/lua/luaDebugger.cpp:438-443 | the search loop finds the first position of the breakpoint in the list |
| Debugger.LuaDebugger.Step | wrapper/util/lua/luaDebugger.cpp:168-176 | Stepping, armed on the next line of the current frame's file; breakpoints untouched |
| Debugger.LuaDebugger.Next | wrapper/util/lua/luaDebugger.cpp:179-184 | Stepping, armed on the wildcard line; breakpoints untouched |
| Debugger.LuaDebugger.StepToReturn | wrapper/util/lua/luaDebugger.cpp:186-202 | Stepping, armed on the current function's name, or as Step for an unnamed frame |
| Debugger.LuaDebugger.Continue | wrapper/util/lua/luaDebugger.cpp:204-207 | Continuing, with the breakpoints and the step target kept |
| Debugger.LuaDebugger.PrintStackFrame | wrapper/util/lua/luaDebugger.cpp:216-226 | writes "<name or (anon)> at <src>:<line>" for the frame |
| Debugger.LuaDebugger.PrintCurrentStackFrame | wrapper/util/lua/luaDebugger.cpp:211-214 | writes the line of frame 1 |
| Debugger.LuaDebugger.PrintBacktrace | wrapper/util/lua/luaDebugger.cpp:228-237 | writes the numbered line of every frame, in order |
| Debugger.LuaDebugger.GetDebugStack | wrapper/util/lua/luaDebugger.cpp:501-508 | reports a frame exactly when the level is below the stack depth |
| Debugger.LuaDebugger.PrintLevel | wrapper/util/lua/luaDebugger.cpp:233-235 | one pass of the backtrace loop extends the written backtrace by that level's header and frame line |
| Debugger.LuaDebugger.PrintSource | wrapper/util/lua/luaDebugger.cpp:268-312 | writes the listing of the current frame's file, "< No Source (<source>)>" when the file without its '@' is unreadable, and nothing without a frame or source |
| Debugger.LuaDebugger.PrintListing | wrapper/util/lua/luaDebugger.cpp:283-310 | the three counting loops write exactly the rendered Listing |
| Debugger.LuaDebugger.SkipLines | wrapper/util/lua/luaDebugger.cpp:283-286 | the skip loop stops after the lines before the window, or at the end of the file |
| Debugger.LuaDebugger.PrintCurrentLine | wrapper/util/lua/luaDebugger.cpp:299-301 | writes the arrowed row, with empty text past the end of the file |
| Debugger.LuaDebugger.PrintRow | wrapper/util/lua/luaDebugger.cpp:294 | writes a row's prefix, text and newline |
| Debugger.LuaDebugger.ListingParts | wrapper/util/lua/luaDebugger.cpp:283-310 | the read positions of the loops cut Listing into its three parts |
| Debugger.LuaDebugger.PrintLineNumber | wrapper/util/lua/luaDebugger.cpp:248-263 | writes the marker, the digits and the padding |
| Debugger.LuaDebugger.PrintLines | wrapper/util/lua/luaDebugger.cpp:291-310 | a context loop writes up to count numbered rows, stopping at the end of the file |
| Debugger.LuaDebugger.PrintNextRow | wrapper/util/lua/luaDebugger.cpp:294-297 | one pass of a context loop extends the written listing by the next numbered line |
| Debugger.LuaDebugger.WrapperChunk | wrapper/util/lua/luaDebugger.cpp:335-384 | the text built line by line is the wrapper text over the names the upvalue loop reports, and the count it returns is the number of those names |
| Debugger.LuaDebugger.AddUpvalueLines | wrapper/util/lua/luaDebugger.cpp:337-358 | probing the top of the stack with `lua_getupvalue(.., -1, n + 1)` until NULL, each success pushing the value found, appends one line per name `ProbedNames` reports and counts them |
| Debugger.LuaDebugger.AddLocalLines | wrapper/util/lua/luaDebugger.cpp:367-376 | the local loop appends one line per local before the first "(*temporary)" |
| Debugger.LuaDebugger.AddLine | wrapper/util/lua/luaDebugger.cpp:343-382 | appends one newline-terminated line |
| Debugger.LuaDebugger.EvaluateExpression | wrapper/util/lua/luaDebugger.cpp:315-419 | evaluates with the hook mask 0, writes the outcome's output, then restores the stack top and the mode and recomputes the hooks |
| Debugger.LuaDebugger.WriteOutcome | wrapper/util/lua/luaDebugger.cpp:401-415 | writes the result marker and the error line of the outcome |
| Debugger.LuaDebugger.Execute | wrapper/util/lua/luaDebugger.cpp:54-125 | a handler's effect is Handle's, and it exits the REPL iff it is c, s, n or r |
| Debugger.LuaDebugger.ExecuteControl | wrapper/util/lua/luaDebugger.cpp:54-94 | the exiting handlers' effect is Handle's |
| Debugger.LuaDebugger.ExecuteDisplay | wrapper/util/lua/luaDebugger.cpp:96-125 | the list, where and expression handlers' effect is Handle's |
| Debugger.LuaDebugger.EnterDebugger | wrapper/util/lua/luaDebugger.cpp:136-165 | drops the step target, enters Debugging and ends in the session the functional Run gives on the same input; the token and the 512-character argument buffer persist across passes, every read stores into the buffer, and `p` reads it from index 1 |
| Debugger.LuaDebugger.ReadCommand | wrapper/util/lua/luaDebugger.cpp:146-150 | one prompt and read is Prompt, with the token and the argument buffer carried over |
| Debugger.LuaDebugger.DispatchCommand | wrapper/util/lua/luaDebugger.cpp:152-163 | dispatch is Dispatch: an unknown token writes "unknown command: <token>", an exiting command recomputes the hooks, and the result says whether the mode left Debugging |
| Debugger.LuaDebugger.DebugHook | wrapper/util/lua/luaDebugger.cpp:553-641 | bad streams change nothing; otherwise the reaction to the event is Classify's, only the hit breakpoint's counter moves, and a stop prints and runs the REPL |
| Debugger.LuaDebugger.StopAtStep | wrapper/util/lua/luaDebugger.cpp:569-583 | a step stop lists the source and enters the REPL |
| Debugger.LuaDebugger.StopAtReturn | wrapper/util/lua/luaDebugger.cpp:623-635 | a return stop prints the backtrace and the source and enters the REPL |
| Debugger.LuaDebugger.Stop | wrapper/util/lua/luaDebugger.cpp:588-616 | a hit counts once on that breakpoint, prints the backtrace and the source and enters the REPL |
| Debugger.LuaDebugger.PrintAndEnter | wrapper/util/lua/luaDebugger.cpp:569-635 | writes the optional backtrace and the listing, then runs the REPL on the debugger's streams |
| Debugger.LuaDebugger.CountedHit | wrapper/util/lua/luaDebugger.cpp:588-616 | after a hit, only the counter of that target's breakpoint has moved |
| Debugger.LuaDebugger.Handled | wrapper/util/lua/luaDebugger.cpp:553-641 | a stop that counted the hit and ran the REPL is what DebugHook promises for a live reaction |
| Debugger.DebuggerRegistry.constructor | wrapper/util/lua/luaDebugger.cpp:22-23 | the table starts empty |
| Debugger.DebuggerRegistry.Trampoline | wrapper/util/lua/luaDebugger.cpp:522-530 | an event for a registered thread is handled by its debugger as DebugHook promises; the table itself is unchanged |
| LuaUtils.FindKey | wrapper/util/lua/luaUtils.cpp:181-195 | the position of the first child with the key, or the length when there is none |
| LuaUtils.InsertByKey | wrapper/util/lua/luaUtils.cpp:61 | inserting adds exactly the one child |
| LuaUtils.SortByKey | wrapper/util/lua/luaUtils.cpp:61 | the sort keeps the same children |
| LuaUtils.LuaToPTree | wrapper/util/lua/luaUtils.cpp:42-75 | the hash loop, the sort and the array loop produce ToPTree's tree and log |
| LuaUtils.PushNextToPTree | wrapper/util/lua/luaUtils.cpp:128-147 | one hash entry: a string key is put with its value, a number key is left for the array pass, any other key is warned |
| LuaUtils.PushNextValueToPTree | wrapper/util/lua/luaUtils.cpp:150-179 | a value goes under its key: a table as a subtree, a scalar as text; an unsupported value is warned |
| LuaUtils.PushNextValueInArrayToPTree | wrapper/util/lua/luaUtils.cpp:197-229 | an array element is pushed back under "": a table as a subtree, a scalar as text; an unsupported value is warned |
| LuaUtils.SetField | wrapper/util/lua/luaUtils.cpp:108-114 | setting a field adds at most one entry |
| LuaUtils.FillTable | wrapper/util/lua/luaUtils.cpp:96-115 | the loop over children produces a table |
| LuaUtils.PushPTreeAsTable | wrapper/util/lua/luaUtils.cpp:78-116 | pushes exactly the table TableOf gives |
| LuaUtils.PushPTreeAsValue | wrapper/util/lua/luaUtils.cpp:259-305 | pushes exactly the value ValueOf gives |
| LuaUtilsSort.SortByKeySorted | wrapper/util/lua/luaUtils.cpp:61 | the sorted children are ordered by key and are a permutation of the input |
| LuaUtilsSort.SortByKeyStable | wrapper/util/lua/luaUtils.cpp:61 | the sort is stable: the children under each key keep their order |
| LuaUtilsSort.SortByKeyDistinct | wrapper/util/lua/luaUtils.cpp:61 | sorting keeps keys distinct |
| LuaUtilsSort.SortedUnique | wrapper/util/lua/luaUtils.cpp:61 | two key-ordered permutations of the same children with distinct keys are equal |
| LuaUtilsSort.SortByKeyOrderIrrelevant | wrapper/util/lua/luaUtils.cpp:55-61 | with distinct keys, the sorted result depends only on which children there are, not on their order |
| LuaUtilsToTree.HashPassFromEmpty | wrapper/util/lua/luaUtils.cpp:55-59 | with distinct keys, the hash pass appends one named child per converted entry, in traversal order |
| LuaUtilsToTree.ArrayPassAppends | wrapper/util/lua/luaUtils.cpp:64-69 | the array pass appends one "" child per supported element, in index order |
| LuaUtilsToTree.TableLayout | wrapper/util/lua/luaUtils.cpp:55-69 | a table becomes the sorted named children followed by the unsorted array children |
| LuaUtilsToTree.TableTreeShape | wrapper/util/lua/luaUtils.cpp:55-69 | the root data is empty; the named prefix is sorted, with distinct plain keys, and holds every string-keyed converted entry; the rest are "" children, one per supported array element |
| LuaUtilsToTree.TableExclusive | wrapper/util/lua/luaUtils.cpp:171-174 | no node of a converted table has both data and children |
| LuaUtilsToTree.ValueExclusive | wrapper/util/lua/luaUtils.cpp:221-223 | nor does the tree of any converted value |
| LuaUtilsToTree.PassesKeepData | wrapper/util/lua/luaUtils.cpp:55-69 | both passes keep the output tree's own data |
| LuaUtilsToTree.TableLogWarnings | wrapper/util/lua/luaUtils.cpp:128-229 | converting a table only ever logs warnings, never the two errors |
| LuaUtilsToTree.ToPTreeOutcome | wrapper/util/lua/luaUtils.cpp:45-49 | the log is [NoArgument] iff the stack is empty and [NotATable] iff the top is not a table; in both cases the tree is unchanged; its data is always kept |
| LuaUtilsToTree.SkippedAreWarned | wrapper/util/lua/luaUtils.cpp:140-145 | every skipped key type, unsupported hash value and unsupported array element is warned |
| LuaUtilsToTree.NamedChildrenPermutation | wrapper/util/lua/luaUtils.cpp:55-59 | permuting the entries permutes the named children |
| LuaUtilsToTree.HashOrderIrrelevant | wrapper/util/lua/luaUtils.cpp:55-69 | with distinct keys, the converted tree does not depend on the traversal order of the hash part |
| LuaUtilsPush.BoolTranslatorRoundTrip | wrapper/util/lua/luaUtils.cpp:234-256 | get_value (put_value b) gives back b |
| LuaUtilsPush.BoolGetValueMeaning | wrapper/util/lua/luaUtils.cpp:237-249 | a text is true iff it is "true" and false iff it is "false", ignoring case; anything else, the empty text included, is no boolean |
| LuaUtilsPush.ValueOfCases | wrapper/util/lua/luaUtils.cpp:259-305 | a node with children is a table; a leaf is probed as boolean, then number, then string; no unsupported value is pushed |
| LuaUtilsPush.ProbeExamples | wrapper/util/lua/luaUtils.cpp:275-301 | "TrUe" and "FALSE" push booleans, "42" and "-7" numbers, "abc" and "" strings |
| LuaUtilsPush.NumberTextIsNoBool | wrapper/util/lua/luaUtils.cpp:287-292 | number text never reads back as a boolean |
| LuaUtilsPush.ScalarRoundTrip | wrapper/util/lua/luaUtils.cpp:171-179 | a scalar written as leaf text is pushed back as the same value |
| LuaUtilsPush.SetFieldLookup | wrapper/util/lua/luaUtils.cpp:108-114 | after setting, the key maps to the new value and every other key keeps its value |
| LuaUtilsPush.SetFieldDistinct | wrapper/util/lua/luaUtils.cpp:108-114 | setting keeps keys distinct |
| LuaUtilsPush.FillTableArray | wrapper/util/lua/luaUtils.cpp:100-107 | the array part is the values of the "" children in tree order, indexed 1..k |
| LuaUtilsPush.FillTableKeys | wrapper/util/lua/luaUtils.cpp:108-114 | the hash part has distinct, non-empty string keys |
| LuaUtilsPush.FillTableLookup | wrapper/util/lua/luaUtils.cpp:108-114 | each named key maps to the value of the last child under it |
| LuaUtilsPush.TableOfShape | wrapper/util/lua/luaUtils.cpp:78-116 | the pushed table's array part and field lookups, all at once |
| LuaUtilsPush.TableOfIgnoresData | wrapper/util/lua/luaUtils.cpp:263-273 | the root's own data does not affect the pushed table |
| LuaUtilsPush.FillTableDistinct | wrapper/util/lua/luaUtils.cpp:108-114 | with distinct names, the hash part lists the named children in tree order |
| LuaUtilsPush.TableRoundTrip | wrapper/util/lua/luaUtils.cpp:42-116 | pushing a well-keyed tree and reading it back gives the tree with its named children sorted and its array children after them, recursively |
| LuaUtilsPush.PushedTableLogFree | wrapper/util/lua/luaUtils.cpp:128-229 | reading back a pushed tree logs nothing |
| LuaUtilsPush.PushThenRead | wrapper/basestation/test/testLua.cpp:188-219 | pushing a tree as a table and converting the top of the stack gives the canonical tree with an empty log |
| LuaUtilsPush.LiteralMatchesPushedTree | wrapper/basestation/test/testLua.cpp:176-219 | a table literal with the same fields and array as the pushed tree converts to the same tree as the pushed table |

## Left out

- The Lua C API is not modelled. This covers `lua_getstack`, `lua_getinfo`
  with its field selection, `lua_getlocal`, `luaL_loadstring`, `lua_pcall`,
  `print` and `lua_sethook`. Frames, name lists, hook records and
  evaluation outcomes are inputs instead. Of `lua_getupvalue`, only its
  lookup of the n-th upvalue of the value probed is modelled
  (`LuaEnv.GetUpvalue`). The upvalue values are passed to the chunk, but
  evaluation depends on the chunk text alone.
- The REPL and its commands (`EnterDebugger`, `DebugHook`, the registry's
  trampoline) require `Paused`: a frame exists and one of its slots is
  named "(*temporary)". This holds in the one place they run, a hook
  called on a running Lua function. There Lua names the slot past the
  active locals "(*temporary)". The `c`, `n`, `l` and `bt` commands would
  not need the sentinel.
- Expression semantics and the text `print` produces are left to Lua. The
  model records only which stage failed, and the error message, if any.
- Outside this model: luaScript.cpp, luaContext.cpp and the game files
  (baseStationGameBridge.cpp, gameWithLuaScript.cpp). Their behaviour is
  coroutine and game state.
- `PrintBreakpoints` (luaDebugger.cpp:239-246) is left out. It prints raw
  pointer values and never increments its index.
- `UnsetBreakpoint(int)` (luaDebugger.h:66) is left out. It is declared but
  has no definition.
- EnterDebugger: the argument buffer is uninitialized in the source until
  the first read stores into it. A bare `p` as the first command reads those
  bytes. The model starts from a zeroed buffer, so that command evaluates
  the empty expression.
- InStream.ReadCommand: a line of 511 or more characters after the token
  makes `getline` set `failbit`, which ends the loop and leaves the rest of
  the line unread. The model stores the first 511 characters as `getline`
  does, but consumes the whole line and keeps the stream good.
- A '\0' inside an input line ends the C string the handler reads. The
  argument lemmas are stated for lines without one.
- Stream failure from writes is not modelled. `good` on the output stream
  is an input, and writes keep it.
- Memory management (`SafeDelete`, pointer ownership) is not modelled. The
  model holds breakpoints as objects in the sets and the list.
- Concurrency is not modelled. The debugger and the registry are
  single-threaded.
- LuaUtils.NumberText: numbers are decimal integers. `put` of a double
  (luaUtils.cpp:165, 194, 213) writes it through Boost's stream
  translator, `<<` on a stream at raised precision. That text for
  fractional and large values is not modelled.
- LuaUtils.NumberGetValue: numeric text is an optional '-' followed by
  decimal digits. `get_optional<lua_Number>` (luaUtils.cpp:287) reads with
  Boost's stream translator, `>>` on a stream. It also accepts leading
  blanks, trailing blanks, a '+' sign, fractions and exponents, and no
  hexadecimal. Those forms are not modelled.
- LuaUtils.LuaToPTree: this requires plain keys (non-empty, no '.'). Boost
  `put` and `put_child` split paths on '.', which is not modelled.
- LuaUtils.LuaToPTree: a `LuaValue` is a finite tree with no identity, so
  tables are never shared and never cyclic. A table that reaches itself
  makes the source recurse without end (luaUtils.cpp:171-172, 221-222).
  The model cannot express that input.
- LuaUtils.LuaToPTree: strings are whole sequences. The source builds each
  `std::string` from a `char*` (luaUtils.cpp:136, 168, 217). It pushes
  keys and leaves back with `c_str()` (luaUtils.cpp:111, 299). Both cut a
  string at its first '\0', and that truncation is not modelled.
- LuaUtils.EntryPut: for a tree that already has a child under the key,
  the model updates its first such child, following Boost `put`.
  Overwriting a caller's pre-filled tree is otherwise not studied.
- LuaUtils.PushPTreeAsValue: the unreachable push of nil (luaUtils.cpp:302-304)
  has no counterpart. Every leaf is a string at worst.
- Table sizing is not modelled: `lua_createtable` hints and the `INT_MAX`
  asserts (luaUtils.cpp:86-94, 105) only size the table.
- The Lua table is a hash sequence in `lua_next` order plus an array part
  1..n. `luaL_len` border semantics are not modelled: a hole inside 1..n
  appears as an unsupported element.
- LuaUtilsPush.TableRoundTrip: stated for well-keyed trees, where named
  keys are distinct, non-empty and contain no '.'. Duplicate named keys
  collapse to the last one in the pushed table, and `FillTableLookup`
  states what survives.

## Findings

| source | as written | input that shows it | evidently intended | confidence | as-written member | corrected member |
|---|---|---|---|---|---|---|
| wrapper/util/lua/luaDebugger.cpp:345-358 | `lua_getupvalue(state, -1, numUpValues + 1)` probes the top of the stack. After the first success, the top is the value just pushed, not the frame's function. | a function capturing the numbers `x` then `y`: only `x` is bound, and the chunk gets one upvalue | bind every upvalue of the frame's function, probing the function at its fixed stack index | not executed | DebuggerSpec.SecondUpvalueDropped | DebuggerSpec.IntendedWrapperLayout |
| wrapper/util/lua/luaDebugger.cpp:251-262 | `assert(str.length() < sizeof spacer)` measures a `const char*`, so it admits up to 7 digits. `&spacer[str.length()]` then indexes the 5-blank literal. | line number 100000: 6 digits pass the assert and index past the spacer's terminator | pad line numbers to a 5-character field, with no padding for wider numbers | not executed | DebuggerSpec.SixDigitLineNumberOverreads | DebuggerSpec.LinePrefixShape |
