/** Value-level specification of the debugger: the hook mask, the
    classification of hook events, the breakpoint display list, the REPL's
    command table and loop, and the text of every listing it prints.  The
    class `LuaDebugger` (debugger.dfy) is proved against these functions. */
module DebuggerSpec {
  import opened Base
  import opened Breakpoints
  import opened LuaEnv

  /** `LuaDebugger::DebuggerState` without its `Count` sentinel. */
  datatype DebuggerState = Idle | Debugging | Stepping | EvaluatingExpression | Continuing

  // =====================================================================
  // UpdateHooks

  /** The mask `UpdateHooks` installs. */
  function HookMask(mode: DebuggerState, hasFunctionBreakpoints: bool, hasLineBreakpoints: bool): bv32
  {
    if mode == EvaluatingExpression then 0
    else
      var m1: bv32 := if hasFunctionBreakpoints then MASK_CALL else 0;
      var m2 := if hasLineBreakpoints then m1 | MASK_LINE else m1;
      if mode == Stepping then m2 | MASK_LINE | MASK_RET else m2
  }

  /** Bit by bit: nothing while an expression is evaluated; otherwise calls
      iff there is a function breakpoint, lines iff there is a line
      breakpoint or the debugger is stepping, returns iff stepping, never
      instruction counts. */
  lemma HookMaskBits(mode: DebuggerState, hasFn: bool, hasLine: bool)
    ensures var m := HookMask(mode, hasFn, hasLine);
      && (mode == EvaluatingExpression ==> m == 0)
      && (m & MASK_CALL != 0 <==> mode != EvaluatingExpression && hasFn)
      && (m & MASK_LINE != 0 <==> mode != EvaluatingExpression && (hasLine || mode == Stepping))
      && (m & MASK_RET != 0 <==> mode == Stepping)
      && m & MASK_COUNT == 0
      && m & !(MASK_CALL | MASK_RET | MASK_LINE) == 0
  {
  }

  // =====================================================================
  // The display list `_breakpoints`, seen as the sequence of its targets

  predicate Distinct<T(==)>(s: seq<T>)
  {
    forall i, j :: 0 <= i < j < |s| ==> s[i] != s[j]
  }

  /** `emplace` then `push_back` only when the set did not have the key. */
  function AddBreakpoint(display: seq<Target>, t: Target): seq<Target>
  {
    if t in display then display else display + [t]
  }

  /** `erase` of the first list element referring to the removed key. */
  function RemoveFirst(display: seq<Target>, t: Target): seq<Target>
  {
    if display == [] then []
    else if display[0] == t then display[1..]
    else [display[0]] + RemoveFirst(display[1..], t)
  }

  /** Adding keeps the list free of duplicates, puts a new key at the end
      and is idempotent. */
  lemma AddBreakpointProperties(display: seq<Target>, t: Target)
    requires Distinct(display)
    ensures Distinct(AddBreakpoint(display, t))
    ensures forall x :: x in AddBreakpoint(display, t) <==> x in display || x == t
    ensures t !in display ==> AddBreakpoint(display, t) == display + [t]
    ensures AddBreakpoint(AddBreakpoint(display, t), t) == AddBreakpoint(display, t)
  {
  }

  /** The list after removing `t` at index `i`. */
  lemma {:induction false} RemoveFirstAt(display: seq<Target>, t: Target, i: nat)
    requires i < |display| && display[i] == t && t !in display[..i]
    ensures RemoveFirst(display, t) == display[..i] + display[i + 1..]
  {
    if i > 0 {
      assert display[0] != t by { assert display[0] in display[..i]; }
      assert display[1..][..i - 1] == display[..i][1..];
      RemoveFirstAt(display[1..], t, i - 1);
      assert display[..i] == [display[0]] + display[1..][..i - 1];
      assert display[1..][i..] == display[i + 1..];
    }
  }

  /** Removing an absent key changes nothing. */
  lemma {:induction false} RemoveAbsent(display: seq<Target>, t: Target)
    requires t !in display
    ensures RemoveFirst(display, t) == display
  {
    if display != [] {
      assert display == [display[0]] + display[1..];
      RemoveAbsent(display[1..], t);
    }
  }

  /** Removing keeps every other key and drops `t`. */
  lemma {:induction false} RemoveFirstMembers(display: seq<Target>, t: Target)
    requires Distinct(display)
    ensures forall x :: x in RemoveFirst(display, t) <==> x in display && x != t
  {
    if display != [] {
      assert Distinct(display[1..]);
      RemoveFirstMembers(display[1..], t);
      if display[0] == t {
        assert t !in display[1..];
      }
    }
  }

  /** Removing keeps the list free of duplicates and shortens it by one
      exactly when `t` was in it. */
  lemma {:induction false} RemoveFirstDistinct(display: seq<Target>, t: Target)
    requires Distinct(display)
    ensures Distinct(RemoveFirst(display, t))
    ensures |RemoveFirst(display, t)| == if t in display then |display| - 1 else |display|
  {
    if display != [] {
      var rest := display[1..];
      assert Distinct(rest);
      RemoveFirstDistinct(rest, t);
      if display[0] != t {
        var r := RemoveFirst(display, t);
        var r' := RemoveFirst(rest, t);
        assert r == [display[0]] + r';
        RemoveFirstMembers(rest, t);
        assert display[0] !in r';
        assert t in display <==> t in rest;
        forall i, j | 0 <= i < j < |r| ensures r[i] != r[j] {
          if i > 0 {
            assert r[i] == r'[i - 1] && r[j] == r'[j - 1];
          } else {
            assert r[j] in r';
          }
        }
      }
    }
  }

  /** Unsetting a key that was just set anew restores the list. */
  lemma RemoveUndoesAdd(display: seq<Target>, t: Target)
    requires t !in display
    ensures RemoveFirst(AddBreakpoint(display, t), t) == display
  {
    var i := |display|;
    assert (display + [t])[..i] == display;
    assert (display + [t])[i + 1..] == [];
    RemoveFirstAt(display + [t], t, i);
  }

  // =====================================================================
  // DebugHook: how an event is classified

  /** What `DebugHook` does with an event once the streams are good. */
  datatype Reaction =
    | Ignore
    | StepStop                          // stepping target reached: list source, REPL
    | FunctionHit(name: string)         // hit, backtrace, list source, REPL
    | LineHit(file: string, line: int)  // hit, backtrace, list source, REPL
    | ReturnStop                        // step-to-return reached: backtrace, list source, REPL

  /** The stepping test comes first and ignores the event kind. */
  predicate StepMatches(mode: DebuggerState, step: Option<Target>, ar: HookEvent)
  {
    mode == Stepping && step.Some? &&
    (Equals(step.value, LineTarget(ar.shortSrc, ar.currentLine)) || Equals(step.value, AnyLine()))
  }

  function Classify(mode: DebuggerState, step: Option<Target>, functionNames: set<string>,
                    lines: set<(string, int)>, ar: HookEvent): Reaction
  {
    if StepMatches(mode, step, ar) then StepStop
    else match ar.event
      case Call | TailCall =>
        if ar.name.Some? && ar.name.value in functionNames then FunctionHit(ar.name.value) else Ignore
      case Line =>
        if (ar.shortSrc, ar.currentLine) in lines then LineHit(ar.shortSrc, ar.currentLine) else Ignore
      case Return =>
        if mode == Stepping && step.Some? && ar.name.Some?
           && Equals(step.value, FunctionTarget(ar.name.value))
        then ReturnStop else Ignore
      case Count => Ignore
  }

  /** A `Next` (step target AnyLine) stops at the very next event delivered,
      whatever its kind and whatever breakpoints are set, and counts no hit. */
  lemma NextStopsOnAnyEvent(functionNames: set<string>, lines: set<(string, int)>, ar: HookEvent)
    ensures Classify(Stepping, Some(AnyLine()), functionNames, lines, ar) == StepStop
  {
  }

  /** Exactly when each reaction happens. */
  lemma ClassifyCases(mode: DebuggerState, step: Option<Target>, functionNames: set<string>,
                      lines: set<(string, int)>, ar: HookEvent)
    ensures var r := Classify(mode, step, functionNames, lines, ar);
      && (r == StepStop <==> StepMatches(mode, step, ar))
      && (r.FunctionHit? <==>
            !StepMatches(mode, step, ar) && (ar.event == Call || ar.event == TailCall)
            && ar.name.Some? && ar.name.value in functionNames)
      && (r.FunctionHit? ==> Some(r.name) == ar.name)
      && (r.LineHit? <==>
            !StepMatches(mode, step, ar) && ar.event == Line && (ar.shortSrc, ar.currentLine) in lines)
      && (r.LineHit? ==> r.file == ar.shortSrc && r.line == ar.currentLine)
      && (r == ReturnStop <==>
            !StepMatches(mode, step, ar) && ar.event == Return && mode == Stepping
            && ar.name.Some? && step == Some(FunctionTarget(ar.name.value)))
      && (ar.event == Count ==> (r == Ignore <==> !StepMatches(mode, step, ar)))
  {
  }

  /** Every breakpoint hit and every return stop is for an event kind that
      the mask installed by `UpdateHooks` delivers, and so is a step stop on
      a line or return event. */
  lemma StopsAreDelivered(mode: DebuggerState, step: Option<Target>, functionNames: set<string>,
                          lines: set<(string, int)>, ar: HookEvent)
    requires mode != EvaluatingExpression
    ensures var r := Classify(mode, step, functionNames, lines, ar);
      var m := HookMask(mode, functionNames != {}, lines != {});
      (r.FunctionHit? || r.LineHit? || r == ReturnStop ||
       (r == StepStop && (ar.event == Line || ar.event == Return))) ==> Delivers(m, ar.event)
  {
    HookMaskBits(mode, functionNames != {}, lines != {});
  }

  // =====================================================================
  // Step commands: the transient target each one arms

  /** `Step`: the next line of the current frame's file. */
  function StepTarget(f: Frame): Target
  {
    LineTarget(f.shortSrc, f.currentLine + 1)
  }

  /** `StepToReturn`: the current function by name, or `Step`'s target. */
  function ReturnTarget(f: Frame): (t: Target)
    ensures f.name.Some? ==> t == FunctionTarget(f.name.value)
    ensures f.name.None? ==> t == StepTarget(f)
  {
    if f.name.Some? then FunctionTarget(f.name.value) else StepTarget(f)
  }

  /** Step-to-return in a named frame never stops as a step, and stops at
      a return exactly when the returning function has the frame's name; in
      an unnamed frame it reacts to every event as Step does. */
  lemma ReturnTargetStops(f: Frame, functionNames: set<string>, lines: set<(string, int)>, ar: HookEvent)
    ensures f.name.Some? ==>
      var r := Classify(Stepping, Some(ReturnTarget(f)), functionNames, lines, ar);
      r != StepStop && (r == ReturnStop <==> ar.event == Return && ar.name == f.name)
    ensures f.name.None? ==>
      Classify(Stepping, Some(ReturnTarget(f)), functionNames, lines, ar)
        == Classify(Stepping, Some(StepTarget(f)), functionNames, lines, ar)
  {
  }

  // =====================================================================
  // PrintStackFrame / PrintBacktrace

  function FrameLine(f: Frame): string
  {
    (if f.name.Some? then f.name.value else "(anon)")
      + " at " + f.shortSrc + ":" + IntText(f.currentLine) + "\n"
  }

  /** The output of PrintBacktrace over the first `n` frames. */
  function Backtrace(frames: seq<Frame>, n: nat := |frames|): (r: seq<string>)
    requires n <= |frames|
    ensures |r| == 2 * n
  {
    if n == 0 then []
    else Backtrace(frames, n - 1) + ["(" + IntText(n - 1) + ") ", FrameLine(frames[n - 1])]
  }

  lemma BacktraceNone(w: seq<string>, frames: seq<Frame>)
    ensures w + Backtrace(frames, 0) == w
  {
    assert Backtrace(frames, 0) == [];
  }

  /** A backtrace has one numbered header and one description per frame,
      innermost (level 0) first. */
  lemma {:induction false} BacktraceShape(frames: seq<Frame>, n: nat)
    requires n <= |frames|
    ensures forall k :: 0 <= k < n ==>
      Backtrace(frames, n)[2 * k] == "(" + IntText(k) + ") " &&
      Backtrace(frames, n)[2 * k + 1] == FrameLine(frames[k])
  {
    forall k | 0 <= k < n
      ensures Backtrace(frames, n)[2 * k] == "(" + IntText(k) + ") "
      ensures Backtrace(frames, n)[2 * k + 1] == FrameLine(frames[k])
    {
      BacktraceAt(frames, n, k);
    }
  }

  /** Level `k` of a backtrace over `n` frames. */
  lemma {:induction false} BacktraceAt(frames: seq<Frame>, n: nat, k: nat)
    requires k < n <= |frames|
    ensures Backtrace(frames, n)[2 * k] == "(" + IntText(k) + ") "
    ensures Backtrace(frames, n)[2 * k + 1] == FrameLine(frames[k])
  {
    var b := Backtrace(frames, n - 1);
    assert Backtrace(frames, n) == b + ["(" + IntText(n - 1) + ") ", FrameLine(frames[n - 1])];
    if k < n - 1 {
      BacktraceAt(frames, n - 1, k);
    }
  }

  // =====================================================================
  // PrintLineNumber and PrintSource

  /** The C string "     " behind `spacer`. */
  const SPACER: string := "     "

  /** `sizeof spacer`: `spacer` is a `const char*`, so this is the size of
      a pointer (8 on a 64-bit target), not of the five-blank literal. */
  const POINTER_SIZE: nat := 8

  /** As written, the assertion accepts numbers of up to seven digits. */
  predicate AssertAdmits(digits: nat) { digits < POINTER_SIZE }

  /** As written, the text at `&spacer[digits]` exists only when the index
      is within the literal and its terminator. */
  predicate SpacerIndexInBounds(digits: nat) { digits <= |SPACER| }

  /** Six-digit line numbers pass the assertion yet index past the end of
      the literal: the assertion was meant to bound the digits by the
      spacer's length. */
  lemma SixDigitLineNumberOverreads()
    ensures |NatText(100000)| == 6
    ensures AssertAdmits(|NatText(100000)|) && !SpacerIndexInBounds(|NatText(100000)|)
  {
    assert |NatText(10)| == 2;
    assert |NatText(100)| == 3;
    assert |NatText(1000)| == 4;
    assert |NatText(10000)| == 5;
  }

  /** Corrected padding after the number: up to a 5-character field, none
      once the number fills it. */
  function Padding(digits: nat): string
  {
    if digits < |SPACER| then SPACER[digits..] else ""
  }

  lemma PaddingIsBlank(digits: nat)
    ensures |Padding(digits)| == Max(5, digits) - digits
    ensures forall i :: 0 <= i < |Padding(digits)| ==> Padding(digits)[i] == ' '
  {
  }

  /** `PrintLineNumber`: an arrow or three blanks, then the number left-aligned
      in a 5-character field. */
  function LinePrefix(n: nat, arrow: bool): string
  {
    Marker(arrow) + NatText(n) + Padding(|NatText(n)|)
  }

  /** `preSpacer` or the arrow. */
  function Marker(arrow: bool): string
  {
    if arrow then "-> " else "   "
  }

  /** The prefix is the marker, then the digits, then blanks up to column 8;
      a wider number simply extends it. */
  lemma LinePrefixShape(n: nat, arrow: bool)
    ensures var p := LinePrefix(n, arrow); var d := NatText(n);
      && |p| == 3 + Max(5, |d|)
      && p[..3] == (if arrow then "-> " else "   ")
      && p[3..3 + |d|] == d
      && forall i :: 3 + |d| <= i < |p| ==> p[i] == ' '
  {
    var d := NatText(n);
    var p := LinePrefix(n, arrow);
    NatTextIsNumeral(n);
    assert p == (if arrow then "-> " else "   ") + d + Padding(|d|);
    assert p[3..3 + |d|] == d;
    PaddingIsBlank(|d|);
    assert forall i :: 3 + |d| <= i < |p| ==> p[i] == Padding(|d|)[i - 3 - |d|];
  }

  /** One printed line of a listing: its number, whether it carries the
      arrow, and the text read for it. */
  datatype Row = Row(number: nat, arrow: bool, text: string)

  /** The five insertions that print a row: the marker, the digits and the
      padding of PrintLineNumber, then the line's text and `std::endl`. */
  function RowText(r: Row): seq<string>
  {
    [Marker(r.arrow), NatText(r.number), Padding(|NatText(r.number)|), r.text, "\n"]
  }

  /** Together the five insertions are the prefix, the text and a newline. */
  lemma RowTextIsLine(r: Row)
    ensures var w := RowText(r); w[0] + w[1] + w[2] + w[3] + w[4] == LinePrefix(r.number, r.arrow) + r.text + "\n"
  {
  }

  /** The strings written for a listing, five per row. */
  function Render(rows: seq<Row>): (r: seq<string>)
    ensures |r| == 5 * |rows|
  {
    if rows == [] then [] else Render(rows[..|rows| - 1]) + RowText(rows[|rows| - 1])
  }

  lemma RenderSnoc(rows: seq<Row>, r: Row)
    ensures Render(rows + [r]) == Render(rows) + RowText(r)
  {
    assert (rows + [r])[..|rows|] == rows;
  }

  lemma {:induction false} RenderConcat(a: seq<Row>, b: seq<Row>)
    ensures Render(a + b) == Render(a) + Render(b)
    decreases |b|
  {
    if b == [] {
      assert a + b == a;
    } else {
      var b' := b[..|b| - 1];
      var r := b[|b| - 1];
      assert a + b == (a + b') + [r] && b == b' + [r];
      RenderSnoc(a + b', r);
      RenderSnoc(b', r);
      RenderConcat(a, b');
    }
  }

  /** Writing a row's five insertions after a rendered listing extends it
      by that row. */
  lemma RowWritten(w0: seq<string>, rows: seq<Row>, w1: seq<string>, r: Row, w: seq<string>)
    requires w1 == w0 + Render(rows) && w == w1 + RowText(r)
    ensures w == w0 + Render(rows + [r])
  {
    RenderSnoc(rows, r);
    AppendAssoc(w0, Render(rows), RowText(r));
  }

  /** The listing written as its three parts is the rendered listing. */
  lemma ListingWritten(w0: seq<string>, lines: seq<string>, p0: nat, p1: nat, w1: seq<string>, arrow: Row,
                       w2: seq<string>, p2: nat, p3: nat, w: seq<string>)
    requires p0 <= p1 <= |lines| && p2 <= p3 <= |lines|
    requires w1 == w0 + Listed(lines, p0, p1) && w2 == w1 + RowText(arrow) && w == w2 + Listed(lines, p2, p3)
    ensures w == w0 + Render(Rows(lines, p0 + 1, p1 - p0) + [arrow] + Rows(lines, p2 + 1, p3 - p2))
  {
    var before, after := Rows(lines, p0 + 1, p1 - p0), Rows(lines, p2 + 1, p3 - p2);
    RenderSnoc(before, arrow);
    RenderConcat(before + [arrow], after);
    AppendAssoc(w0, Render(before), RowText(arrow));
    AppendAssoc(w0, Render(before) + RowText(arrow), Render(after));
  }

  /** Rows for lines first .. first + count - 1 (1-based), no arrow. */
  function Rows(lines: seq<string>, first: nat, count: nat): seq<Row>
    requires 1 <= first && first + count <= |lines| + 1
  {
    if count == 0 then []
    else Rows(lines, first, count - 1) + [Row(first + count - 1, false, lines[first + count - 2])]
  }

  /** The strings written for lines `pos + 1` .. `next` (1-based). */
  function Listed(lines: seq<string>, pos: nat, next: nat): seq<string>
    requires pos <= next <= |lines|
  {
    Render(Rows(lines, pos + 1, next - pos))
  }

  lemma ListedNone(w: seq<string>, lines: seq<string>, pos: nat)
    requires pos <= |lines|
    ensures w + Listed(lines, pos, pos) == w
  {
    assert Listed(lines, pos, pos) == [];
  }

  /** One more row at the end. */
  lemma RowsSnoc(lines: seq<string>, pos: nat, count: nat)
    requires pos + count < |lines|
    ensures Rows(lines, pos + 1, count + 1) == Rows(lines, pos + 1, count) + [Row(pos + count + 1, false, lines[pos + count])]
  {
  }

  /** The listing PrintSource writes for a readable file, `cur` being the
      current line: this follows the source's counters, including its
      behaviour at the end of a short file, where the arrow row is printed
      with an empty text after the last line. */
  function Listing(lines: seq<string>, cur: int, context: nat): seq<Row>
  {
    var n := |lines|;
    var k := SkippedLines(n, cur, context);
    var b := LinesBefore(n, cur, context);
    var c := k + b + 1;                                // the arrowed line
    Rows(lines, k + 1, b)
      + [Row(c, true, if c <= n then lines[c - 1] else "")]
      + (if c <= n then Rows(lines, c + 1, Min(context, n - c)) else [])
  }

  /** Lines the first loop of PrintSource reads past: `currentline -
      context - 1` of them, as far as the file has them. */
  function SkippedLines(n: nat, cur: int, context: nat): (k: nat)
    ensures k <= n
  {
    var skip := cur - context - 1;
    if skip <= 0 then 0 else Min(skip, n)
  }

  /** Lines the second loop prints before the current one. */
  function LinesBefore(n: nat, cur: int, context: nat): (b: nat)
    ensures SkippedLines(n, cur, context) + b <= n
  {
    var m := Min(cur - 1, n) - SkippedLines(n, cur, context);
    if m < 0 then 0 else m
  }

  /** For a current line inside the file, the loops start at line
      max(1, cur - context) and stop just before `cur`. */
  lemma ListingCounters(n: nat, cur: int, context: nat)
    requires 1 <= cur <= n
    ensures SkippedLines(n, cur, context) == Max(1, cur - context) - 1
    ensures LinesBefore(n, cur, context) == cur - Max(1, cur - context)
  {
  }

  /** The rows of the window lo .. hi with the arrow on `cur`. */
  function Window(lines: seq<string>, lo: nat, hi: nat, cur: int): (r: seq<Row>)
    requires 1 <= lo && hi <= |lines|
    decreases hi - lo + 1
  {
    if hi < lo then []
    else Window(lines, lo, hi - 1, cur) + [Row(hi, hi == cur, lines[hi - 1])]
  }

  lemma {:induction false} RowsAreWindow(lines: seq<string>, first: nat, count: nat, cur: int)
    requires 1 <= first && first + count <= |lines| + 1
    requires cur < first || cur >= first + count
    ensures Rows(lines, first, count) == Window(lines, first, first + count - 1, cur)
  {
    if count > 0 { RowsAreWindow(lines, first, count - 1, cur); }
  }

  lemma {:induction false} WindowSplit(lines: seq<string>, lo: nat, mid: nat, hi: nat, cur: int)
    requires 1 <= lo <= mid + 1 && mid <= hi <= |lines|
    ensures Window(lines, lo, hi, cur) == Window(lines, lo, mid, cur) + Window(lines, mid + 1, hi, cur)
    decreases hi - mid
  {
    if hi > mid { WindowSplit(lines, lo, mid, hi - 1, cur); }
  }

  /** The three parts of a listing whose current line is in the file. */
  lemma ListingInFile(lines: seq<string>, cur: int, context: nat)
    requires 1 <= cur <= |lines|
    ensures Listing(lines, cur, context)
         == Rows(lines, Max(1, cur - context), cur - Max(1, cur - context))
          + [Row(cur, true, lines[cur - 1])]
          + Rows(lines, cur + 1, Min(|lines|, cur + context) - cur)
  {
    var n := |lines|;
    var lo := Max(1, cur - context);
    var hi := Min(n, cur + context);
    ListingCounters(n, cur, context);
    var k := SkippedLines(n, cur, context);
    var b := LinesBefore(n, cur, context);
    assert k + 1 == lo && b == cur - lo && k + b + 1 == cur;
    var before := Rows(lines, k + 1, b);
    var arrow := [Row(cur, true, lines[cur - 1])];
    var after := Rows(lines, cur + 1, Min(context, n - cur));
    assert Min(context, n - cur) == hi - cur;
    assert Listing(lines, cur, context) == before + arrow + after;
  }

  /** When the current line is in the file, the listing is exactly lines
      max(1, cur - context) .. min(n, cur + context), numbered, with the
      arrow on line `cur` only. */
  lemma ListingIsWindow(lines: seq<string>, cur: int, context: nat)
    requires 1 <= cur <= |lines|
    ensures Listing(lines, cur, context)
         == Window(lines, Max(1, cur - context), Min(|lines|, cur + context), cur)
  {
    ListingInFile(lines, cur, context);
    WindowAround(lines, Max(1, cur - context), cur, Min(|lines|, cur + context));
  }

  /** A window cut at its arrowed line. */
  lemma WindowAround(lines: seq<string>, lo: nat, cur: nat, hi: nat)
    requires 1 <= lo <= cur <= hi <= |lines|
    ensures Window(lines, lo, hi, cur)
         == Rows(lines, lo, cur - lo) + [Row(cur, true, lines[cur - 1])] + Rows(lines, cur + 1, hi - cur)
  {
    var before := Rows(lines, lo, cur - lo);
    var arrow := [Row(cur, true, lines[cur - 1])];
    var after := Rows(lines, cur + 1, hi - cur);
    RowsAreWindow(lines, lo, cur - lo, cur);
    RowsAreWindow(lines, cur + 1, hi - cur, cur);
    assert Window(lines, cur, cur, cur) == arrow by {
      assert Window(lines, cur, cur - 1, cur) == [];
    }
    WindowSplit(lines, lo, cur - 1, hi, cur);
    WindowSplit(lines, cur, cur, hi, cur);
    assert before + arrow + after == before + (arrow + after);
  }

  /** `&source[1]`: the chunk name without its leading '@'. */
  function SourcePath(source: string): string
  {
    if |source| == 0 then "" else source[1..]
  }

  /** What PrintSource(stream, context) writes for the paused VM. */
  function SourceText(vm: Vm, context: nat): seq<string>
  {
    match GetStack(vm, 0)
    case None => []
    case Some(f) =>
      match f.source
      case None => []
      case Some(src) =>
        if SourcePath(src) !in vm.files then ["< No Source (" + src + ")>\n"]
        else Render(Listing(vm.files[SourcePath(src)], f.currentLine, context))
  }

  // =====================================================================
  // EvaluateExpression: the wrapper chunk

  /** The name `lua_getlocal` gives to the first unnamed stack slot. */
  const SENTINEL: string := "(*temporary)"

  /** The frame has a slot past its named locals, which ends the
      enumeration of locals. */
  predicate LocalsEnd(f: Frame) { SENTINEL in f.localNames }

  /** Number of locals before the first sentinel. */
  function NamedLocalCount(names: seq<string>): (k: nat)
    requires SENTINEL in names
    ensures k < |names| && names[k] == SENTINEL && SENTINEL !in names[..k]
    ensures forall j :: 0 <= j < k ==> names[j] != SENTINEL
  {
    if names[0] == SENTINEL then 0
    else
      assert SENTINEL in names[1..];
      var k := NamedLocalCount(names[1..]) + 1;
      assert names[..k] == [names[0]] + names[1..][..k - 1];
      k
  }

  function UpvalueLine(name: string, i: nat): string
  {
    if name == "_ENV" then "_ENV = upvals[" + NatText(i) + "]"
    else "_ENV[\"" + name + "\"] = upvals[" + NatText(i) + "]"
  }

  /** One line per upvalue, upvalue i (1-based) read from `upvals[i]`. */
  function UpvalueLines(names: seq<string>): (r: seq<string>)
    ensures |r| == |names|
    ensures forall i :: 0 <= i < |names| ==> r[i] == UpvalueLine(names[i], i + 1)
  {
    if names == [] then []
    else UpvalueLines(names[..|names| - 1]) + [UpvalueLine(names[|names| - 1], |names|)]
  }

  /** The names the upvalue loop of `EvaluateExpression` reports when it
      probes the value on top of the stack with `lua_getupvalue(.., -1, n + 1)`
      for n = 0, 1, ...: each success pushes the upvalue's value, which the
      next probe then asks, and the first failure ends the loop. */
  function ProbedNames(top: UpvalueValue, n: nat): seq<string>
    decreases top
  {
    if top.Closure? && n < |top.upvalues| then
      assert top.upvalues[n] in top.upvalues;
      [top.upvalues[n].name] + ProbedNames(top.upvalues[n].value, n + 1)
    else []
  }

  /** The upvalue names the source's loop reports for frame `f`, whose
      function `lua_getinfo(.., "f", ..)` left on top of the stack. */
  function ProbedUpvalueNames(f: Frame): seq<string>
  {
    ProbedNames(Closure(f.upvalues), 0)
  }

  /** The names of all upvalues of the frame's function, in order. */
  function UpvalueNames(f: Frame): (r: seq<string>)
    ensures |r| == |f.upvalues| && forall i :: 0 <= i < |r| ==> r[i] == f.upvalues[i].name
  {
    seq(|f.upvalues|, i requires 0 <= i < |f.upvalues| => f.upvalues[i].name)
  }

  /** As written, the probe reports the frame's first upvalue and then asks
      that upvalue's value for its second: when no upvalue of the frame
      holds a closure, at most one name is reported, whatever the number of
      upvalues. */
  lemma ProbedNamesWithoutClosures(f: Frame)
    requires forall i :: 0 <= i < |f.upvalues| ==> f.upvalues[i].value == Plain
    ensures ProbedUpvalueNames(f) == UpvalueNames(f)[..if |f.upvalues| == 0 then 0 else 1]
  {
    if |f.upvalues| > 0 {
      assert ProbedNames(f.upvalues[0].value, 1) == [];
    }
  }

  /** The first name reported is always the frame's first upvalue, and
      after it the probe continues in that upvalue's value. */
  lemma ProbedNamesFirst(f: Frame)
    ensures |ProbedUpvalueNames(f)| == 0 <==> |f.upvalues| == 0
    ensures |f.upvalues| > 0 ==>
      ProbedUpvalueNames(f) == [f.upvalues[0].name] + ProbedNames(f.upvalues[0].value, 1)
  {
  }

  /** A function capturing the numbers `x` and then `y`: the loop reports
      `x` alone, so the wrapper binds no `y` and the chunk is called with a
      single upvalue. */
  lemma SecondUpvalueDropped()
    ensures var f := Frame(None, None, "", 0, [Upvalue("x", Plain), Upvalue("y", Plain)], [SENTINEL]);
      ProbedUpvalueNames(f) == ["x"] && UpvalueNames(f) == ["x", "y"]
      && WrapperLines(ProbedUpvalueNames(f), f.localNames, "y") != WrapperLines(UpvalueNames(f), f.localNames, "y")
  {
    var f := Frame(None, None, "", 0, [Upvalue("x", Plain), Upvalue("y", Plain)], [SENTINEL]);
    assert ProbedNames(Plain, 1) == [];
    assert |WrapperLines(ProbedUpvalueNames(f), f.localNames, "y")| == 7;
  }

  function LocalLine(name: string, i: nat): string
  {
    "local " + name + " = locals[" + NatText(i) + "]"
  }

  /** One line per named local, local i (1-based) read from `locals[i]`. */
  function LocalLines(names: seq<string>): (r: seq<string>)
    ensures |r| == |names|
    ensures forall i :: 0 <= i < |names| ==> r[i] == LocalLine(names[i], i + 1)
  {
    if names == [] then []
    else LocalLines(names[..|names| - 1]) + [LocalLine(names[|names| - 1], |names|)]
  }

  lemma UpvalueLinesNext(names: seq<string>, n: nat)
    requires n < |names|
    ensures UpvalueLines(names[..n + 1]) == UpvalueLines(names[..n]) + [UpvalueLine(names[n], n + 1)]
  {
    assert names[..n + 1][..n] == names[..n];
  }

  lemma LocalLinesNext(names: seq<string>, n: nat)
    requires n < |names|
    ensures LocalLines(names[..n + 1]) == LocalLines(names[..n]) + [LocalLine(names[n], n + 1)]
  {
    assert names[..n + 1][..n] == names[..n];
  }

  const WRAPPER_HEAD: seq<string> := ["local _ENV = {}", "local upvals = {...}"]
  const WRAPPER_INNER: seq<string> := ["return function(...)", "  local locals = {...}"]

  /** The lines of the chunk synthesized for `expr`, binding the upvalues
      `upvalueNames` and the locals of `localNames` before the sentinel. */
  function WrapperLines(upvalueNames: seq<string>, localNames: seq<string>, expr: string): seq<string>
    requires SENTINEL in localNames
  {
    WRAPPER_HEAD + UpvalueLines(upvalueNames) + WRAPPER_INNER
      + LocalLines(localNames[..NamedLocalCount(localNames)])
      + ["  return " + expr, "end"]
  }

  /** Every line newline-terminated, in order. */
  function Unlines(ls: seq<string>): string
  {
    if ls == [] then "" else Unlines(ls[..|ls| - 1]) + ls[|ls| - 1] + "\n"
  }

  lemma {:induction false} UnlinesAppend(a: seq<string>, b: seq<string>)
    ensures Unlines(a + b) == Unlines(a) + Unlines(b)
    decreases |b|
  {
    if b == [] {
      assert a + b == a;
    } else {
      assert (a + b)[..|a + b| - 1] == a + b[..|b| - 1];
      UnlinesAppend(a, b[..|b| - 1]);
    }
  }

  /** The chunk the source synthesizes for `expr` in frame `f`, with the
      upvalue names its loop reports. */
  function WrapperText(f: Frame, expr: string): string
    requires LocalsEnd(f)
  {
    Unlines(WrapperLines(ProbedUpvalueNames(f), f.localNames, expr))
  }

  /** The wrapper's layout for any upvalue names: the two environment
      lines, one line per upvalue, the inner function's header, one line per
      local before the sentinel, the returned expression and `end`. */
  lemma WrapperLayout(upvalueNames: seq<string>, localNames: seq<string>, expr: string)
    requires SENTINEL in localNames
    ensures var ls := WrapperLines(upvalueNames, localNames, expr); var u := |upvalueNames|;
      var k := NamedLocalCount(localNames);
      && |ls| == u + k + 6
      && ls[0] == "local _ENV = {}" && ls[1] == "local upvals = {...}"
      && (forall i :: 0 <= i < u ==> ls[2 + i] == UpvalueLine(upvalueNames[i], i + 1))
      && ls[2 + u] == "return function(...)"
      && ls[3 + u] == "  local locals = {...}"
      && (forall i :: 0 <= i < k ==> ls[4 + u + i] == LocalLine(localNames[i], i + 1))
      && ls[4 + u + k] == "  return " + expr
      && ls[5 + u + k] == "end"
  {
    WrapperFixedLines(upvalueNames, localNames, expr);
    WrapperUpvalueBlock(upvalueNames, localNames, expr);
    WrapperLocalBlock(upvalueNames, localNames, expr);
  }

  /** The wrapper's length and its lines that do not depend on the names. */
  lemma WrapperFixedLines(upvalueNames: seq<string>, localNames: seq<string>, expr: string)
    requires SENTINEL in localNames
    ensures var ls := WrapperLines(upvalueNames, localNames, expr); var u := |upvalueNames|;
      var k := NamedLocalCount(localNames);
      && |ls| == u + k + 6
      && ls[0] == "local _ENV = {}" && ls[1] == "local upvals = {...}"
      && ls[2 + u] == "return function(...)"
      && ls[3 + u] == "  local locals = {...}"
      && ls[4 + u + k] == "  return " + expr
      && ls[5 + u + k] == "end"
  {
    var k := NamedLocalCount(localNames);
    var up := UpvalueLines(upvalueNames);
    var lo := LocalLines(localNames[..k]);
    ConcatParts(WRAPPER_HEAD, up, WRAPPER_INNER, lo, ["  return " + expr, "end"]);
  }

  /** The upvalue lines of the wrapper, one per name. */
  lemma WrapperUpvalueBlock(upvalueNames: seq<string>, localNames: seq<string>, expr: string)
    requires SENTINEL in localNames
    ensures var ls := WrapperLines(upvalueNames, localNames, expr);
      forall i :: 0 <= i < |upvalueNames| ==> ls[2 + i] == UpvalueLine(upvalueNames[i], i + 1)
  {
    var up := UpvalueLines(upvalueNames);
    var ls := WrapperLines(upvalueNames, localNames, expr);
    var front := WRAPPER_HEAD + up;
    assert ls[..|front|] == front;
    forall i | 0 <= i < |upvalueNames|
      ensures ls[2 + i] == UpvalueLine(upvalueNames[i], i + 1)
    {
      assert ls[2 + i] == front[2 + i] == up[i];
    }
  }

  /** The local lines of the wrapper, one per local before the sentinel. */
  lemma WrapperLocalBlock(upvalueNames: seq<string>, localNames: seq<string>, expr: string)
    requires SENTINEL in localNames
    ensures var ls := WrapperLines(upvalueNames, localNames, expr); var u := |upvalueNames|;
      forall i :: 0 <= i < NamedLocalCount(localNames) ==> ls[4 + u + i] == LocalLine(localNames[i], i + 1)
  {
    var k := NamedLocalCount(localNames);
    var u := |upvalueNames|;
    var lo := LocalLines(localNames[..k]);
    var ls := WrapperLines(upvalueNames, localNames, expr);
    var mid := WRAPPER_HEAD + UpvalueLines(upvalueNames) + WRAPPER_INNER;
    var front := mid + lo;
    assert |mid| == 4 + u;
    assert ls[..|front|] == front;
    forall i | 0 <= i < k
      ensures ls[4 + u + i] == LocalLine(localNames[i], i + 1)
    {
      assert ls[4 + u + i] == front[|mid| + i] == lo[i];
      assert localNames[..k][i] == localNames[i];
    }
  }

  /** The wrapper as intended binds every upvalue of the frame's function:
      one line per upvalue, the i-th binding the i-th upvalue's name to
      `upvals[i]`. */
  lemma IntendedWrapperLayout(f: Frame, expr: string)
    requires LocalsEnd(f)
    ensures var ls := WrapperLines(UpvalueNames(f), f.localNames, expr); var u := |f.upvalues|;
      && |ls| == u + NamedLocalCount(f.localNames) + 6
      && (forall i :: 0 <= i < u ==> ls[2 + i] == UpvalueLine(f.upvalues[i].name, i + 1))
      && ls[2 + u] == "return function(...)"
  {
    var names := UpvalueNames(f);
    var k := NamedLocalCount(f.localNames);
    var up := UpvalueLines(names);
    ConcatParts(WRAPPER_HEAD, up, WRAPPER_INNER, LocalLines(f.localNames[..k]), ["  return " + expr, "end"]);
    forall i | 0 <= i < |f.upvalues|
      ensures up[i] == UpvalueLine(f.upvalues[i].name, i + 1)
    {
      assert names[i] == f.upvalues[i].name;
    }
  }

  /** Splitting text at newlines, the inverse of Unlines. */
  function SplitLines(s: string): seq<string>
  {
    if s == [] then [] else
    var i := FirstNewline(s);
    if i == |s| then [s] else [s[..i]] + SplitLines(s[i + 1..])
  }

  function FirstNewline(s: string): (i: nat)
    ensures i <= |s| && '\n' !in s[..i] && (i < |s| ==> s[i] == '\n')
  {
    if s == [] then 0
    else if s[0] == '\n' then 0
    else
      var j := FirstNewline(s[1..]) + 1;
      assert s[..j] == [s[0]] + s[1..][..j - 1];
      j
  }

  /** Unlines from the front. */
  lemma {:induction false} UnlinesCons(l: string, ls: seq<string>)
    ensures Unlines([l] + ls) == l + "\n" + Unlines(ls)
  {
    UnlinesAppend([l], ls);
    assert Unlines([l]) == Unlines([]) + l + "\n";
  }

  lemma {:induction false} FirstNewlineAfter(l: string, t: string)
    requires '\n' !in l
    ensures FirstNewline(l + "\n" + t) == |l|
  {
    if l != [] {
      assert l[0] in l;
      assert (l + "\n" + t)[1..] == l[1..] + "\n" + t;
      FirstNewlineAfter(l[1..], t);
    }
  }

  /** Splitting the wrapper text at newlines gives back its lines, provided
      no name and no expression contains a newline. */
  lemma {:induction false} SplitUnlines(ls: seq<string>)
    requires forall j :: 0 <= j < |ls| ==> '\n' !in ls[j]
    ensures SplitLines(Unlines(ls)) == ls
  {
    if ls != [] {
      var l := ls[0];
      assert ls == [l] + ls[1..];
      UnlinesCons(l, ls[1..]);
      var s := Unlines(ls);
      assert s == l + "\n" + Unlines(ls[1..]);
      assert s[..|l|] == l;
      FirstNewlineAfter(l, Unlines(ls[1..]));
      assert s[|l| + 1..] == Unlines(ls[1..]);
      SplitUnlines(ls[1..]);
    }
  }

  /** What EvaluateExpression writes for an outcome. */
  function ErrorLine(message: Option<string>): string
  {
    "**Error: " + (if message.Some? then message.value else "( no description )") + "\n"
  }

  function EvalOutput(outcome: EvalOutcome): seq<string>
  {
    match outcome
    case Printed => [">>> "]
    case PrintFailed(m) => [">>> ", ErrorLine(m)]
    case LoadFailed(m) => [ErrorLine(m)]
    case CallFailed(m) => [ErrorLine(m)]
  }

  /** The result marker is written iff the chunk ran, and it is the only
      thing written iff the result was printed; every failure writes one
      error line. */
  lemma EvalOutputShape(outcome: EvalOutcome)
    ensures var r := EvalOutput(outcome);
      && ((|r| > 0 && r[0] == ">>> ") <==> (outcome.Printed? || outcome.PrintFailed?))
      && (outcome.Printed? <==> r == [">>> "])
      && (!outcome.Printed? ==> r[|r| - 1] == ErrorLine(outcome.message))
  {
  }

  /** `&args[1]`: the C string that starts one past the buffer's first
      character, which skips the blank that follows the token. */
  function ExpressionArg(args: seq<char>): string
  {
    CStringAt(args, 1)
  }

  /** `char argBuf[512]`, declared once for the whole loop. */
  const ARG_BUF_SIZE: nat := 512

  /** The buffer's bytes before the first read (zeroed here; uninitialized
      in C++). */
  function InitialArgs(): (b: seq<char>)
    ensures |b| == ARG_BUF_SIZE && forall i :: 0 <= i < |b| ==> b[i] == '\0'
  {
    seq(ARG_BUF_SIZE, i => '\0')
  }

  // =====================================================================
  // The REPL

  datatype Command = ContinueCmd | StepCmd | NextCmd | ReturnCmd | ListCmd | WhereCmd | ExpressionCmd

  /** `sDebuggerCommands`: the command table with its aliases. */
  function LookupCommand(token: string): Option<Command>
  {
    if token == "continue" || token == "c" then Some(ContinueCmd)
    else if token == "step" || token == "s" then Some(StepCmd)
    else if token == "next" || token == "n" then Some(NextCmd)
    else if token == "return" || token == "r" then Some(ReturnCmd)
    else if token == "list" || token == "l" then Some(ListCmd)
    else if token == "where" || token == "bt" then Some(WhereCmd)
    else if token == "expression" || token == "p" then Some(ExpressionCmd)
    else None
  }

  /** The value a handler returns: whether the REPL exits. */
  predicate ExitsRepl(c: Command)
  {
    c == ContinueCmd || c == StepCmd || c == NextCmd || c == ReturnCmd
  }

  /** The table has exactly fourteen entries, two per command. */
  lemma CommandTable(token: string)
    ensures LookupCommand(token).Some? <==>
      token in {"continue", "c", "step", "s", "next", "n", "return", "r",
                "list", "l", "where", "bt", "expression", "p"}
  {
  }

  /** The part of the debugger's state the REPL changes, plus its input and output. */
  datatype Session = Session(
    mode: DebuggerState,
    step: Option<Target>,
    hook: HookSetting,
    input: seq<InputLine>,
    endsWithNewline: bool,
    inGood: bool,
    output: seq<string>,
    command: string,
    argBuf: seq<char>)

  /** What the REPL reads but does not change. */
  datatype ReplContext = ReplContext(hasFunctionBreakpoints: bool, hasLineBreakpoints: bool, vm: Vm, outGood: bool)

  /** The frame the REPL's commands inspect exists and its locals end. */
  predicate Paused(vm: Vm)
  {
    |vm.frames| > 0 && LocalsEnd(vm.frames[0])
  }

  function Rehook(mode: DebuggerState, ctx: ReplContext): HookSetting
  {
    Trampoline(HookMask(mode, ctx.hasFunctionBreakpoints, ctx.hasLineBreakpoints))
  }

  /** A command handler's effect on the session, and whether it asks the
      REPL to exit. */
  function Handle(s: Session, c: Command, args: seq<char>, ctx: ReplContext): Session
    requires Paused(ctx.vm)
  {
    var f := ctx.vm.frames[0];
    match c
    case ContinueCmd => s.(output := s.output + ["continue\n"], mode := Continuing)
    case StepCmd => s.(mode := Stepping, step := Some(StepTarget(f)))
    case NextCmd => s.(mode := Stepping, step := Some(AnyLine()))
    case ReturnCmd => s.(output := s.output + ["step to return\n"], mode := Stepping, step := Some(ReturnTarget(f)))
    case ListCmd => s.(output := s.output + SourceText(ctx.vm, 4))
    case WhereCmd => s.(output := s.output + Backtrace(ctx.vm.frames))
    case ExpressionCmd =>
      // EvaluateExpression restores the mode and recomputes the hooks
      s.(output := s.output + EvalOutput(ctx.vm.evaluate(WrapperText(f, ExpressionArg(args)))),
         hook := Rehook(s.mode, ctx))
  }

  /** A dispatched command: the handler, then UpdateHooks when it exits. */
  function RunCommand(s: Session, c: Command, args: seq<char>, ctx: ReplContext): Session
    requires Paused(ctx.vm)
  {
    var h := Handle(s, c, args, ctx);
    if ExitsRepl(c) then h.(hook := Rehook(h.mode, ctx)) else h
  }

  /** The prompt, then the read: the next line's token replaces the last
      one, and reading a last line with no newline leaves the input not
      good; a failed read keeps the token and leaves the input not good.
      `getline` stores the rest of the line in the buffer, or nothing
      after a failure. */
  function Prompt(s: Session): Session
  {
    var prompted := s.output + ["> "];
    if s.inGood && s.input != [] then
      s.(output := prompted, input := s.input[1..], command := s.input[0].token,
         inGood := |s.input| > 1 || s.endsWithNewline,
         argBuf := GetlineStore(s.argBuf, s.input[0].rest))
    else s.(output := prompted, inGood := false, argBuf := GetlineStore(s.argBuf, ""))
  }

  /** The token just read, dispatched through the command table with the
      buffer as its argument. */
  function Dispatch(s: Session, ctx: ReplContext): Session
    requires Paused(ctx.vm)
  {
    match LookupCommand(s.command)
    case None => s.(output := s.output + ["unknown command: " + s.command + "\n"])
    case Some(c) => RunCommand(s, c, s.argBuf, ctx)
  }

  /** One pass of the REPL loop: prompt, read, dispatch.  A read that fails
      leaves the previous token in place, and it is dispatched again with
      the buffer's previous tail. */
  function Iterate(s: Session, ctx: ReplContext): Session
    requires Paused(ctx.vm)
  {
    Dispatch(Prompt(s), ctx)
  }

  function Measure(s: Session): nat { 2 * |s.input| + (if s.inGood then 1 else 0) }

  lemma IterateProgress(s: Session, ctx: ReplContext)
    requires Paused(ctx.vm) && s.inGood
    ensures Measure(Iterate(s, ctx)) < Measure(s)
  {
  }

  lemma IterateGrows(s: Session, ctx: ReplContext)
    requires Paused(ctx.vm)
    ensures s.output < Iterate(s, ctx).output
  {
  }

  /** The REPL loop, run to its end. */
  function Run(s: Session, ctx: ReplContext): Session
    requires Paused(ctx.vm)
    decreases Measure(s)
  {
    if s.mode == Debugging && s.inGood && ctx.outGood then
      IterateProgress(s, ctx);
      Run(Iterate(s, ctx), ctx)
    else s
  }

  /** The session EnterDebugger starts: no step target, Debugging, no token read yet. */
  function EnterSession(hook: HookSetting, input: seq<InputLine>, endsWithNewline: bool, inGood: bool,
                        output: seq<string>): Session
  {
    Session(Debugging, None, hook, input, endsWithNewline, inGood, output, "", InitialArgs())
  }

  /** The REPL ends only when it has left Debugging or a stream has failed,
      and its output only grows. */
  lemma {:induction false} RunEnds(s: Session, ctx: ReplContext)
    requires Paused(ctx.vm)
    ensures var r := Run(s, ctx);
      (r.mode != Debugging || !r.inGood || !ctx.outGood) && s.output <= r.output
    decreases Measure(s)
  {
    if s.mode == Debugging && s.inGood && ctx.outGood {
      IterateProgress(s, ctx);
      IterateGrows(s, ctx);
      RunEnds(Iterate(s, ctx), ctx);
    }
  }

  predicate DisplayOnly(l: InputLine)
  {
    !(LookupCommand(l.token).Some? && ExitsRepl(LookupCommand(l.token).value))
  }

  /** Display commands and unknown tokens keep the REPL going; the first
      control command (c, s, n, r and their long forms) ends it, in
      Continuing or Stepping with the hooks recomputed, and leaves the lines
      after it unread. */
  lemma {:induction false} RunStopsAtFirstControl(s: Session, ctx: ReplContext, pre: seq<InputLine>,
                                                  l: InputLine, post: seq<InputLine>)
    requires Paused(ctx.vm) && ctx.outGood
    requires s.mode == Debugging && s.inGood && s.input == pre + [l] + post
    requires forall j :: 0 <= j < |pre| ==> DisplayOnly(pre[j])
    requires !DisplayOnly(l)
    ensures var r := Run(s, ctx);
      && r.input == post && r.inGood == (post != [] || s.endsWithNewline)
      && r.mode == (if l.token in {"continue", "c"} then Continuing else Stepping)
      && r.hook == Rehook(r.mode, ctx)
      && (r.mode == Stepping ==> r.step.Some?)
      && (r.mode == Continuing ==> r.step == s.step)
    decreases |pre|
  {
    var s1 := Iterate(s, ctx);
    if pre == [] {
      assert s.input[0] == l && s.input[1..] == post;
    } else {
      assert s.input[0] == pre[0] && s.input[1..] == pre[1..] + [l] + post;
      assert DisplayOnly(pre[0]);
      RunStopsAtFirstControl(s1, ctx, pre[1..], l, post);
    }
  }

  /** Input with no control command is read to its end; the REPL then
      stops with the input stream failed, still in Debugging, without
      recomputing the hooks.  When the input ends with a newline, the last
      prompt's read fails and re-dispatches the previous token; otherwise the
      read of the last line ends the loop. */
  lemma {:induction false} RunUntilEndOfInput(s: Session, ctx: ReplContext)
    requires Paused(ctx.vm) && ctx.outGood
    requires s.mode == Debugging && s.inGood
    requires forall j :: 0 <= j < |s.input| ==> DisplayOnly(s.input[j])
    requires LookupCommand(s.command).None? || !ExitsRepl(LookupCommand(s.command).value)
    ensures var r := Run(s, ctx);
      r.mode == Debugging && !r.inGood && r.input == [] && r.step == s.step
    decreases Measure(s)
  {
    var s1 := Iterate(s, ctx);
    if s.input != [] {
      assert DisplayOnly(s.input[0]);
      if s1.inGood {
        assert forall j :: 0 <= j < |s1.input| ==> s1.input[j] == s.input[j + 1];
        RunUntilEndOfInput(s1, ctx);
      }
    }
  }

  /** The argument a pass hands to its command: after a read whose rest is
      non-empty, that rest without its first character; after a read with an
      empty rest, or a failed read, the argument of the pass before, since
      only the buffer's first byte is overwritten. */
  lemma PromptArgs(s: Session)
    requires |s.argBuf| > 0
    ensures var read := s.inGood && s.input != [];
      var r := if read then s.input[0].rest else "";
      && (0 < |r| < |s.argBuf| && '\0' !in r ==> ExpressionArg(Prompt(s).argBuf) == r[1..])
      && (r == "" ==> ExpressionArg(Prompt(s).argBuf) == ExpressionArg(s.argBuf))
  {
    var r := if s.inGood && s.input != [] then s.input[0].rest else "";
    assert Prompt(s).argBuf == GetlineStore(s.argBuf, r);
    if 0 < |r| < |s.argBuf| && '\0' !in r {
      GetlineArgs(s.argBuf, r);
    }
    if r == "" {
      GetlineEmptyKeepsArgs(s.argBuf);
    }
  }

  /** A last line with no newline is dispatched once and ends the loop:
      the read that reaches the end of the input leaves the stream not good,
      so the token is not dispatched a second time.  With a newline after it,
      the next read fails and the same token is dispatched again, with the
      same argument. */
  lemma LastLineDispatchedOnce(s: Session, ctx: ReplContext, l: InputLine)
    requires Paused(ctx.vm) && ctx.outGood
    requires s.mode == Debugging && s.inGood && s.input == [l] && DisplayOnly(l)
    requires |s.argBuf| > 0
    ensures !s.endsWithNewline ==> Run(s, ctx) == Iterate(s, ctx) && !Run(s, ctx).inGood
    ensures s.endsWithNewline ==> Run(s, ctx) == Iterate(Iterate(s, ctx), ctx)
    ensures s.endsWithNewline ==>
      ExpressionArg(Iterate(Iterate(s, ctx), ctx).argBuf) == ExpressionArg(Iterate(s, ctx).argBuf)
  {
    var s1 := Iterate(s, ctx);
    assert s1.mode == Debugging && s1.input == [] && s1.command == l.token;
    if s.endsWithNewline {
      var s2 := Iterate(s1, ctx);
      assert s1.inGood && !s2.inGood;
      assert Run(s2, ctx) == s2;
      assert Run(s1, ctx) == Run(s2, ctx);
      assert s1.argBuf == Prompt(s).argBuf && s2.argBuf == Prompt(s1).argBuf;
      PromptArgs(s1);
    }
  }

  /** "p x+1", a newline, and the end of the input: the failed read after
      the line keeps the token and the buffer's tail, so `x+1` is evaluated
      twice. */
  lemma StaleExpressionReevaluated(s: Session, ctx: ReplContext)
    requires Paused(ctx.vm) && ctx.outGood
    requires s.mode == Debugging && s.inGood && s.endsWithNewline
    requires s.input == [InputLine("p", " x+1")] && |s.argBuf| == ARG_BUF_SIZE
    ensures var e := EvalOutput(ctx.vm.evaluate(WrapperText(ctx.vm.frames[0], "x+1")));
      Run(s, ctx).output == s.output + ["> "] + e + ["> "] + e
  {
    var l := InputLine("p", " x+1");
    var e := EvalOutput(ctx.vm.evaluate(WrapperText(ctx.vm.frames[0], "x+1")));
    LastLineDispatchedOnce(s, ctx, l);
    assert LookupCommand("p") == Some(ExpressionCmd);
    var p1 := Prompt(s);
    PromptArgs(s);
    assert " x+1"[1..] == "x+1";
    assert p1.command == "p" && ExpressionArg(p1.argBuf) == "x+1";
    var s1 := Iterate(s, ctx);
    assert s1.output == p1.output + e;
    var p2 := Prompt(s1);
    assert p2.command == "p" && p2.output == s1.output + ["> "];
    assert ExpressionArg(p2.argBuf) == "x+1";
    assert Iterate(s1, ctx).output == p2.output + e;
  }

  // =====================================================================
  // DebugHook: what is printed before the REPL, and which counter moves

  /** Text written before entering the REPL: the source listing, preceded
      by a backtrace unless the stop is a step stop. */
  function HookOutput(r: Reaction, vm: Vm): seq<string>
  {
    match r
    case Ignore => []
    case StepStop => SourceText(vm, 4)
    case _ => Backtrace(vm.frames) + SourceText(vm, 4)
  }

  /** The breakpoint whose counter a reaction bumps. */
  function HitTarget(r: Reaction): (t: Option<Target>)
    ensures t.Some? <==> r.FunctionHit? || r.LineHit?
  {
    match r
    case FunctionHit(n) => Some(FunctionTarget(n))
    case LineHit(f, l) => Some(LineTarget(f, l))
    case _ => None
  }

  /** A counter moves only for a breakpoint that is set: the function or
      line of the event, never the step target. */
  lemma HitTargetIsSet(mode: DebuggerState, step: Option<Target>, functionNames: set<string>,
                       lines: set<(string, int)>, ar: HookEvent)
    ensures var t := HitTarget(Classify(mode, step, functionNames, lines, ar));
      t.Some? ==>
        (t.value.FunctionTarget? && t.value.name in functionNames && ar.name == Some(t.value.name)) ||
        (t.value.LineTarget? && (t.value.file, t.value.line) in lines
         && t.value.file == ar.shortSrc && t.value.line == ar.currentLine)
    ensures StepMatches(mode, step, ar) ==> HitTarget(Classify(mode, step, functionNames, lines, ar)).None?
  {
  }
}
