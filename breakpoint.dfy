/** The debugger's breakpoints: a function breakpoint (by name) or a line
    breakpoint (by file and line), each with a hit counter.  The two C++
    subclasses become the two variants of `Target`; the counter, which the
    source mutates in place, lives in the class `Breakpoint`. */
module Breakpoints {
  import opened Base

  /** `unsigned int _hitCount`: a 32-bit unsigned counter. */
  const UINT32_LIMIT: int := 0x1_0000_0000
  type uint32 = x: int | 0 <= x < UINT32_LIMIT

  datatype Target =
    | FunctionTarget(name: string)
    | LineTarget(file: string, line: int)

  /** `operator==`, dispatched on the left operand's class: the other
      breakpoint must be of the same class (the `dynamic_cast` succeeds)
      and agree on every key field. */
  predicate Equals(a: Target, b: Target)
  {
    match a
    case FunctionTarget(n) => b.FunctionTarget? && n == b.name
    case LineTarget(f, l) => b.LineTarget? && f == b.file && l == b.line
  }

  /** The equality operators identify exactly equal targets; in particular
      a function breakpoint never equals a line breakpoint. */
  lemma EqualsIsIdentity(a: Target, b: Target)
    ensures Equals(a, b) <==> a == b
    ensures a.FunctionTarget? != b.FunctionTarget? ==> !Equals(a, b)
  {
  }

  /** `LuaBreakpoint_Function::operator<`: by name. */
  predicate FunctionLess(a: Target, b: Target)
    requires a.FunctionTarget? && b.FunctionTarget?
  {
    StrLess(a.name, b.name)
  }

  /** `LuaBreakpoint_Line::operator<`: by file (`compare`), then by line. */
  predicate LineLess(a: Target, b: Target)
    requires a.LineTarget? && b.LineTarget?
  {
    StrLess(a.file, b.file) || (!StrLess(b.file, a.file) && a.line < b.line)
  }

  /** Function breakpoints are strictly ordered, and the order's
      equivalence (`!(a < b) && !(b < a)`, which std::set uses to reject a
      duplicate) is exactly `==`. */
  lemma FunctionOrderIsStrict(a: Target, b: Target, c: Target)
    requires a.FunctionTarget? && b.FunctionTarget? && c.FunctionTarget?
    ensures !FunctionLess(a, a)
    ensures FunctionLess(a, b) && FunctionLess(b, c) ==> FunctionLess(a, c)
    ensures (!FunctionLess(a, b) && !FunctionLess(b, a)) <==> Equals(a, b)
  {
    StrLessIrreflexive(a.name);
    if FunctionLess(a, b) && FunctionLess(b, c) { StrLessTransitive(a.name, b.name, c.name); }
    StrLessEquivalenceIsEquality(a.name, b.name);
  }

  /** Line breakpoints are strictly ordered lexicographically by
      (file, line), and the equivalence of that order is exactly `==`. */
  lemma LineOrderIsStrict(a: Target, b: Target, c: Target)
    requires a.LineTarget? && b.LineTarget? && c.LineTarget?
    ensures !LineLess(a, a)
    ensures LineLess(a, b) && LineLess(b, c) ==> LineLess(a, c)
    ensures (!LineLess(a, b) && !LineLess(b, a)) <==> Equals(a, b)
  {
    StrLessIrreflexive(a.file);
    StrLessEquivalenceIsEquality(a.file, b.file);
    StrLessEquivalenceIsEquality(b.file, c.file);
    StrLessEquivalenceIsEquality(a.file, c.file);
    if LineLess(a, b) && LineLess(b, c) {
      if StrLess(a.file, b.file) && StrLess(b.file, c.file) {
        StrLessTransitive(a.file, b.file, c.file);
      }
    }
  }

  /** `LuaBreakpoint_Line::AnyLine()`: the step target of `Next`. */
  function AnyLine(): (t: Target)
    ensures t.LineTarget? && t.file == "ANY" && t.line == -1
  {
    LineTarget("ANY", -1)
  }

  /** AnyLine equals exactly the line breakpoints ("ANY", -1). */
  lemma AnyLineEquals(t: Target)
    ensures Equals(t, AnyLine()) <==> t.LineTarget? && t.file == "ANY" && t.line == -1
  {
  }

  /** A breakpoint object: an immutable target plus the mutable hit counter. */
  class Breakpoint {
    const target: Target
    var hitCount: uint32

    /** `LuaBreakpoint_Function(name)`: a fresh counter. */
    constructor Function(name: string)
      ensures target == FunctionTarget(name) && hitCount == 0
    {
      target := FunctionTarget(name);
      hitCount := 0;
    }

    /** `LuaBreakpoint_Line(file, line)`: a fresh counter. */
    constructor Line(file: string, line: int)
      ensures target == LineTarget(file, line) && hitCount == 0
    {
      target := LineTarget(file, line);
      hitCount := 0;
    }

    /** The copy constructor keeps the other breakpoint's count. */
    constructor Copy(other: Breakpoint)
      ensures target == other.target && hitCount == other.hitCount
    {
      target := other.target;
      hitCount := other.hitCount;
    }

    /** `Hit()`: one more hit, wrapping like an unsigned int. */
    method Hit()
      modifies this
      ensures hitCount == (old(hitCount) + 1) % UINT32_LIMIT
    {
      hitCount := if hitCount == UINT32_LIMIT - 1 then 0 else hitCount + 1;
    }

    function GetHitCount(): (n: uint32)
      reads this
      ensures n == hitCount
    {
      hitCount
    }

    /** `operator==` on breakpoint objects compares their targets only. */
    predicate EqualTo(other: Breakpoint)
    {
      Equals(target, other.target)
    }
  }
}
