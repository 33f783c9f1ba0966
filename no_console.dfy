/** The rule `no-console-in-components`: a `console.log(...)` call is
    reported while the rule believes it is inside a component, i.e. inside a
    function declaration, function expression, arrow function or class
    declaration.

    The rule's belief is one boolean, `inComponent`, set by entering any of
    those four kinds and cleared by leaving any of them. It is not a nesting
    depth: leaving an inner function clears it while the outer one is still
    open. `DepthAfter` and `DepthReported` below give the depth-counter
    reading for comparison. */
module NoConsoleInComponents {
  import opened Syntax

  const MessageKey: string := "noConsoleInComponent"

  /** One callback call by the host during its depth-first walk: entering a
      node or leaving it. */
  datatype Event = Enter(node: Node) | Exit(node: Node)

  /** The four kinds bound to `enterComponent` / `exitComponent`. */
  predicate IsComponentKind(k: NodeKind) {
    k.FunctionDeclaration? || k.FunctionExpression? || k.ArrowFunctionExpression? || k.ClassDeclaration?
  }

  /** An event that reaches `enterComponent` or `exitComponent`. */
  predicate IsScopeEvent(e: Event) {
    IsComponentKind(e.node.kind)
  }

  /** The selector
      `CallExpression[callee.object.name="console"][callee.property.name="log"]`.
      It compares names only, so the computed form `console[log]` matches
      too, while `console["log"]` (a literal property) does not. */
  predicate IsConsoleLogCall(n: Node)
    ensures IsConsoleLogCall(n) <==>
              && n.kind.CallExpression?
              && n.kind.callee.kind.MemberExpression?
              && n.kind.callee.kind.obj.kind == Identifier("console")
              && n.kind.callee.kind.property.kind == Identifier("log")
    ensures IsConsoleLogCall(n) ==> !IsComponentKind(n.kind)
  {
    && n.kind.CallExpression?
    && n.kind.callee.kind.MemberExpression?
    && NameOf(n.kind.callee.kind.obj) == Some("console")
    && NameOf(n.kind.callee.kind.property) == Some("log")
  }

  /** The finding reported on a matching call: a key and no data. */
  function ConsoleFinding(n: Node): Finding {
    Finding(MessageKey, map[], n)
  }

  /** The flag after one event. */
  function StepFlag(flag: bool, e: Event): (r: bool)
    ensures IsScopeEvent(e) ==> r == e.Enter?
    ensures !IsScopeEvent(e) ==> r == flag
  {
    if IsScopeEvent(e) then e.Enter? else flag
  }

  /** What one event reports, given the flag before it. */
  function StepReport(flag: bool, e: Event): (r: seq<Finding>)
    ensures |r| <= 1
    ensures r != [] <==> flag && e.Enter? && IsConsoleLogCall(e.node)
    ensures r != [] ==> r == [ConsoleFinding(e.node)]
  {
    if flag && e.Enter? && IsConsoleLogCall(e.node) then [ConsoleFinding(e.node)] else []
  }

  /** All but the last element of a non-empty sequence. */
  function Init(events: seq<Event>): seq<Event>
    requires events != []
  {
    events[..|events| - 1]
  }

  /** The flag after a whole sequence of events, starting from `flag`. It
      is decided by the last scope event alone: set exactly when that event
      is an enter, the starting value when there is none. Call events and
      unbound kinds (`ClassExpression` included) never change it. */
  function FlagAfter(flag: bool, events: seq<Event>): (r: bool)
    decreases |events|
    ensures r == LastScopeFlag(flag, events)
  {
    if events == [] then flag
    else StepFlag(FlagAfter(flag, Init(events)), events[|events| - 1])
  }

  /** Everything a sequence of events reports, in order, starting from `flag`. */
  function Reported(flag: bool, events: seq<Event>): (r: seq<Finding>)
    decreases |events|
    ensures |r| <= |events|
    ensures forall i :: 0 <= i < |r| ==> r[i].key == MessageKey && r[i].data == map[]
                                         && IsConsoleLogCall(r[i].node)
  {
    if events == [] then []
    else Reported(flag, Init(events)) + StepReport(FlagAfter(flag, Init(events)), events[|events| - 1])
  }

  /** One more event: the flag takes one step and what it reports is
      appended. */
  lemma Extend(flag: bool, events: seq<Event>, e: Event)
    ensures FlagAfter(flag, events + [e]) == StepFlag(FlagAfter(flag, events), e)
    ensures Reported(flag, events + [e]) == Reported(flag, events) + StepReport(FlagAfter(flag, events), e)
  {
    assert Init(events + [e]) == events;
  }

  /** `Extend` for the prefixes of one event sequence, after findings
      `earlier` reported before it. */
  lemma ExtendPrefix(earlier: seq<Finding>, flag: bool, events: seq<Event>, i: nat)
    requires i < |events|
    ensures FlagAfter(flag, events[..i + 1]) == StepFlag(FlagAfter(flag, events[..i]), events[i])
    ensures earlier + Reported(flag, events[..i + 1])
            == earlier + Reported(flag, events[..i]) + StepReport(FlagAfter(flag, events[..i]), events[i])
  {
    assert Init(events[..i + 1]) == events[..i];
  }

  // ---------------------------------------------------------------------
  // The rule instance: one per file
  // ---------------------------------------------------------------------

  /** The closure created by `create(context)`: the `inComponent` flag and
      the findings reported so far into the context. */
  class ConsoleRule {
    var inComponent: bool
    var findings: seq<Finding>

    /** `create`: the flag starts `false` and nothing is reported yet. */
    constructor ()
      ensures !inComponent && findings == []
    {
      inComponent := false;
      findings := [];
    }

    /** `enterComponent`: set the flag, whatever it was. */
    method EnterComponent()
      modifies this
      ensures inComponent && findings == old(findings)
    {
      inComponent := true;
    }

    /** `exitComponent`: clear the flag, whatever the nesting. */
    method ExitComponent()
      modifies this
      ensures !inComponent && findings == old(findings)
    {
      inComponent := false;
    }

    /** The `console.log` visitor: report the call when the flag is set; the
        flag is only read. */
    method ConsoleLogCall(node: Node)
      requires IsConsoleLogCall(node)
      modifies this
      ensures inComponent == old(inComponent)
      ensures findings == old(findings) + (if inComponent then [ConsoleFinding(node)] else [])
    {
      if inComponent {
        findings := findings + [ConsoleFinding(node)];
      }
    }

    /** The host calling the bound callbacks for one event. */
    method Handle(e: Event)
      modifies this
      ensures inComponent == StepFlag(old(inComponent), e)
      ensures findings == old(findings) + StepReport(old(inComponent), e)
    {
      if IsScopeEvent(e) {
        if e.Enter? {
          EnterComponent();
        } else {
          ExitComponent();
        }
      } else if e.Enter? && IsConsoleLogCall(e.node) {
        ConsoleLogCall(e.node);
      }
    }

    /** The host walking a file: one event after another. */
    method Run(events: seq<Event>)
      modifies this
      ensures inComponent == FlagAfter(old(inComponent), events)
      ensures findings == old(findings) + Reported(old(inComponent), events)
    {
      ghost var flag0, findings0 := inComponent, findings;
      var i := 0;
      while i < |events|
        invariant 0 <= i <= |events|
        invariant inComponent == FlagAfter(flag0, events[..i])
        invariant findings == findings0 + Reported(flag0, events[..i])
      {
        ExtendPrefix(findings0, flag0, events, i);
        Handle(events[i]);
        i := i + 1;
      }
      assert events[..i] == events;
    }
  }

  /** A fresh rule instance run over a file reports exactly `Reported(false, _)`. */
  method LintFile(events: seq<Event>) returns (found: seq<Finding>)
    ensures found == Reported(false, events)
  {
    var rule := new ConsoleRule();
    rule.Run(events);
    found := rule.findings;
  }

  // ---------------------------------------------------------------------
  // Properties of the flag and of what is reported
  // ---------------------------------------------------------------------

  /** The last event of `events` that reaches enter/exit, if any. */
  function LastScopeEvent(events: seq<Event>): (r: Option<Event>)
    decreases |events|
    ensures r.Some? ==> IsScopeEvent(r.value)
  {
    if events == [] then None
    else if IsScopeEvent(events[|events| - 1]) then Some(events[|events| - 1])
    else LastScopeEvent(Init(events))
  }

  /** The flag as the last scope event alone gives it: set after an enter,
      clear after an exit, `flag` when there is no scope event. */
  function LastScopeFlag(flag: bool, events: seq<Event>): bool {
    match LastScopeEvent(events)
    case None => flag
    case Some(e) => e.Enter?
  }

  /** After any sequence whose last scope event is an exit, the flag is
      `false`, however many scopes were entered before. */
  lemma FinalStateAfterExit(flag: bool, before: seq<Event>, n: Node, after: seq<Event>)
    requires IsComponentKind(n.kind)
    requires forall i :: 0 <= i < |after| ==> !IsScopeEvent(after[i])
    ensures !FlagAfter(flag, before + [Exit(n)] + after)
  {
    LastScopeEventOfTail(before + [Exit(n)], after);
    assert Init(before + [Exit(n)]) == before;
  }

  /** Events without scope events leave the last scope event where it was. */
  lemma {:induction false} LastScopeEventOfTail(events: seq<Event>, after: seq<Event>)
    requires forall i :: 0 <= i < |after| ==> !IsScopeEvent(after[i])
    decreases |after|
    ensures LastScopeEvent(events + after) == LastScopeEvent(events)
  {
    if after == [] {
      assert events + after == events;
    } else {
      assert Init(events + after) == events + Init(after);
      LastScopeEventOfTail(events, Init(after));
    }
  }

  /** Before the first scope event nothing is reported: the flag starts
      `false`. */
  lemma {:induction false} NothingBeforeFirstEnter(events: seq<Event>)
    requires forall i :: 0 <= i < |events| ==> !IsScopeEvent(events[i])
    decreases |events|
    ensures !FlagAfter(false, events) && Reported(false, events) == []
  {
    if events != [] {
      NothingBeforeFirstEnter(Init(events));
    }
  }

  /** Events that are neither scope events nor entries of a `console.log`
      call, appended to any sequence, change neither the flag nor the
      findings. */
  lemma {:induction false} UnrelatedEventsChangeNothing(flag: bool, events: seq<Event>, after: seq<Event>)
    requires forall i :: 0 <= i < |after| ==>
               !IsScopeEvent(after[i]) && !(after[i].Enter? && IsConsoleLogCall(after[i].node))
    decreases |after|
    ensures FlagAfter(flag, events + after) == FlagAfter(flag, events)
    ensures Reported(flag, events + after) == Reported(flag, events)
  {
    if after == [] {
      assert events + after == events;
    } else {
      UnrelatedEventsChangeNothing(flag, events, Init(after));
      assert Init(events + after) == events + Init(after);
    }
  }

  /** A call entered right after a component is entered is reported once. */
  lemma CallInsideComponentReported(f: Node, call: Node)
    requires IsComponentKind(f.kind) && IsConsoleLogCall(call)
    ensures Reported(false, [Enter(f), Enter(call)]) == [ConsoleFinding(call)]
  {
    Extend(false, [], Enter(f));
    assert [] + [Enter(f)] == [Enter(f)];
    Extend(false, [Enter(f)], Enter(call));
    assert [Enter(f)] + [Enter(call)] == [Enter(f), Enter(call)];
  }

  /** A matching call while the flag is set reports exactly one finding,
      keyed `noConsoleInComponent` with no data, and the flag is unchanged. */
  lemma OneFindingPerCall(flag: bool, n: Node)
    requires IsConsoleLogCall(n)
    ensures StepReport(true, Enter(n)) == [Finding(MessageKey, map[], n)]
    ensures StepReport(false, Enter(n)) == []
    ensures StepFlag(flag, Enter(n)) == flag && StepFlag(flag, Exit(n)) == flag
  {
  }

  /** Entering or leaving a class expression, or any other unbound kind,
      leaves the flag as it was. */
  lemma UnboundKindsKeepFlag(flag: bool, n: Node)
    requires !IsComponentKind(n.kind)
    ensures StepFlag(flag, Enter(n)) == flag && StepFlag(flag, Exit(n)) == flag
    ensures StepReport(flag, Exit(n)) == []
  {
  }

  /** `console.warn(...)` and a bare `log(...)` never match. */
  lemma OnlyConsoleLogMatches(callee: Node, loc: Loc, doc: bool)
    ensures var console := Node(Identifier("console"), loc, false);
            var warn := Node(MemberExpression(console, Node(Identifier("warn"), loc, false), false), loc, false);
            !IsConsoleLogCall(Node(CallExpression(warn, false, false), loc, doc))
    ensures !IsConsoleLogCall(Node(CallExpression(Node(Identifier("log"), loc, false), false, false), loc, doc))
  {
    assert "warn" != "log";
  }

  // ---------------------------------------------------------------------
  // Comparison with a nesting-depth counter
  // ---------------------------------------------------------------------

  /** The depth after one event, for a counter that enter increments and
      exit decrements (never below zero). */
  function StepDepth(depth: nat, e: Event): nat {
    if !IsScopeEvent(e) then depth
    else if e.Enter? then depth + 1
    else if depth > 0 then depth - 1 else 0
  }

  function DepthAfter(depth: nat, events: seq<Event>): nat
    decreases |events|
  {
    if events == [] then depth
    else StepDepth(DepthAfter(depth, Init(events)), events[|events| - 1])
  }

  /** What the rule would report with the counter: a call is reported while
      the depth is positive. */
  function DepthReported(depth: nat, events: seq<Event>): seq<Finding>
    decreases |events|
  {
    if events == [] then []
    else DepthReported(depth, Init(events))
         + StepReport(DepthAfter(depth, Init(events)) > 0, events[|events| - 1])
  }

  /** Whenever the flag is set the counter is positive, so every finding
      the flag reports the counter reports too: the flag's errors are all
      missed findings. */
  lemma {:induction false} FlagNeverReportsMoreThanDepth(flag: bool, depth: nat, events: seq<Event>)
    requires flag ==> depth > 0
    decreases |events|
    ensures FlagAfter(flag, events) ==> DepthAfter(depth, events) > 0
    ensures multiset(Reported(flag, events)) <= multiset(DepthReported(depth, events))
    ensures |Reported(flag, events)| <= |DepthReported(depth, events)|
  {
    if events != [] {
      FlagNeverReportsMoreThanDepth(flag, depth, Init(events));
    }
  }

  /** The scope and call events of
      `function Outer() { const inner = () => {}; console.log(); }`. The host
      also enters and leaves identifiers, the block, the declarator, the
      expression statement and the member expression; those events change
      neither the flag nor the findings (`UnrelatedEventsChangeNothing`) and
      are left out of the trace. */
  function NestedTrace(outer: Node, inner: Node, call: Node): seq<Event> {
    [Enter(outer)] + [Enter(inner)] + [Exit(inner)] + [Enter(call)] + [Exit(call)] + [Exit(outer)]
  }

  /** In `NestedTrace` the arrow function's exit clears the flag while
      `Outer` is still open, so the call is not reported. */
  lemma NestedExitHidesOuterCall(outer: Node, inner: Node, call: Node)
    requires IsComponentKind(outer.kind) && IsComponentKind(inner.kind)
    requires IsConsoleLogCall(call)
    ensures Reported(false, NestedTrace(outer, inner, call)) == []
    ensures !FlagAfter(false, NestedTrace(outer, inner, call))
  {
    var s1 := [Enter(outer)];
    var s2 := s1 + [Enter(inner)];
    var s3 := s2 + [Exit(inner)];
    var s4 := s3 + [Enter(call)];
    var s5 := s4 + [Exit(call)];
    assert [] + [Enter(outer)] == s1;
    Extend(false, [], Enter(outer));
    assert FlagAfter(false, s1) && Reported(false, s1) == [];
    Extend(false, s1, Enter(inner));
    assert FlagAfter(false, s2) && Reported(false, s2) == [];
    Extend(false, s2, Exit(inner));
    assert !FlagAfter(false, s3) && Reported(false, s3) == [];
    Extend(false, s3, Enter(call));
    assert !FlagAfter(false, s4) && Reported(false, s4) == [];
    Extend(false, s4, Exit(call));
    assert !FlagAfter(false, s5) && Reported(false, s5) == [];
    Extend(false, s5, Exit(outer));
  }

  /** A depth counter run over the same `NestedTrace` reports the call, and
      returns to zero at the end: the two readings disagree. */
  lemma DepthCounterReportsNested(outer: Node, inner: Node, call: Node)
    requires IsComponentKind(outer.kind) && IsComponentKind(inner.kind)
    requires IsConsoleLogCall(call)
    ensures DepthReported(0, NestedTrace(outer, inner, call)) == [ConsoleFinding(call)]
    ensures DepthAfter(0, NestedTrace(outer, inner, call)) == 0
  {
    var s1 := [Enter(outer)];
    var s2 := s1 + [Enter(inner)];
    var s3 := s2 + [Exit(inner)];
    var s4 := s3 + [Enter(call)];
    var s5 := s4 + [Exit(call)];
    assert [] + [Enter(outer)] == s1;
    DepthExtend(0, [], Enter(outer));
    assert DepthAfter(0, s1) == 1 && DepthReported(0, s1) == [];
    DepthExtend(0, s1, Enter(inner));
    assert DepthAfter(0, s2) == 2 && DepthReported(0, s2) == [];
    DepthExtend(0, s2, Exit(inner));
    assert DepthAfter(0, s3) == 1 && DepthReported(0, s3) == [];
    DepthExtend(0, s3, Enter(call));
    assert DepthAfter(0, s4) == 1 && DepthReported(0, s4) == [ConsoleFinding(call)];
    DepthExtend(0, s4, Exit(call));
    assert DepthAfter(0, s5) == 1 && DepthReported(0, s5) == [ConsoleFinding(call)];
    DepthExtend(0, s5, Exit(outer));
  }

  /** One more event for the depth counter. */
  lemma DepthExtend(depth: nat, events: seq<Event>, e: Event)
    ensures DepthAfter(depth, events + [e]) == StepDepth(DepthAfter(depth, events), e)
    ensures DepthReported(depth, events + [e])
            == DepthReported(depth, events) + StepReport(DepthAfter(depth, events) > 0, e)
  {
    assert Init(events + [e]) == events;
  }
}
