/** The `assigned` list is an exact diff: replayed over the input it gives the output. */
module SolverReplay {
  import opened Options
  import opened DesignModel
  import opened PinSolver
  import opened SolverTrace
  import SolverIdempotence

  /** Each (component, role) pair names one connection. */
  ghost predicate DistinctRoles(connections: seq<Connection>)
  {
    forall i, j :: 0 <= i < j < |connections|
      ==> (connections[i].componentId, connections[i].role) != (connections[j].componentId, connections[j].role)
  }

  /** Set the target of every connection the entry names. */
  function Patch(connections: seq<Connection>, a: Assignment): seq<Connection>
  {
    seq(|connections|, i requires 0 <= i < |connections| =>
      if connections[i].componentId == a.componentId && connections[i].role == a.role
      then connections[i].(target := a.newTarget) else connections[i])
  }

  function Replay(connections: seq<Connection>, assignments: seq<Assignment>): seq<Connection>
    decreases |assignments|
  {
    if assignments == [] then connections
    else Patch(Replay(connections, assignments[..|assignments| - 1]), assignments[|assignments| - 1])
  }

  /** The entry names the connection. */
  predicate NamedBy(c: Connection, a: Assignment)
  {
    c.componentId == a.componentId && c.role == a.role
  }

  /** What the last entry that names c sets. */
  function LastFor(c: Connection, assignments: seq<Assignment>): (r: Option<Target>)
    ensures r.Some? ==> exists a :: a in assignments && NamedBy(c, a) && a.newTarget == r.value
    ensures r.None? ==> forall a | a in assignments :: !NamedBy(c, a)
    decreases |assignments|
  {
    if assignments == [] then None
    else
      var last := assignments[|assignments| - 1];
      assert assignments == assignments[..|assignments| - 1] + [last];
      if NamedBy(c, last) then Some(last.newTarget) else LastFor(c, assignments[..|assignments| - 1])
  }

  lemma {:induction false} SameLast(c: Connection, e: Connection, assignments: seq<Assignment>)
    requires c.componentId == e.componentId && c.role == e.role
    ensures LastFor(c, assignments) == LastFor(e, assignments)
    decreases |assignments|
  {
    if assignments != [] {
      SameLast(c, e, assignments[..|assignments| - 1]);
    }
  }

  lemma {:induction false} ReplayedConnection(connections: seq<Connection>, assignments: seq<Assignment>, j: nat)
    requires j < |connections|
    ensures |Replay(connections, assignments)| == |connections|
    ensures
      var c, last := connections[j], LastFor(connections[j], assignments);
      Replay(connections, assignments)[j] == if last.Some? then c.(target := last.value) else c
    decreases |assignments|
  {
    if assignments != [] {
      ReplayedConnection(connections, assignments[..|assignments| - 1], j);
    }
  }

  lemma {:induction false} ReplayLength(connections: seq<Connection>, assignments: seq<Assignment>)
    ensures |Replay(connections, assignments)| == |connections|
    decreases |assignments|
  {
    if assignments != [] {
      ReplayLength(connections, assignments[..|assignments| - 1]);
    }
  }

  // ------------------------------------------------ entries match the design

  /** The entry is about a connection of the input: its old target is the input's, its new
      target the output's. */
  ghost predicate Describes(a: Assignment, before: seq<Connection>, after: seq<Connection>)
  {
    exists i :: 0 <= i < |before| && |after| == |before|
      && before[i] == Connection(a.componentId, a.role, a.oldTarget)
      && after[i] == Connection(a.componentId, a.role, a.newTarget)
  }

  predicate ChosenEntry(ctx: Context, st: State, i: nat, a: Assignment)
    requires i < |st.connections|
  {
    var c := st.connections[i];
    && Choice(ctx, st, i).Bind? && Unbound(c.target)
    && a == Assignment(c.componentId, c.role, c.target, Choice(ctx, st, i).target)
  }

  predicate LockEntry(ctx: Context, c: Connection, a: Assignment)
  {
    && c.target == Gpio("") && LockFor(ctx, c).Some? && LockFor(ctx, c).value != ""
    && a == Assignment(c.componentId, c.role, Gpio(""), Gpio(LockFor(ctx, c).value))
  }

  /** One visit adds at most one entry, about the connection it visits. */
  lemma StepAdds(ctx: Context, st: State, i: nat)
    requires i < |st.connections|
    ensures
      var c := st.connections[i];
      var choice := Decide(ctx, c, st.used, st.usedEx);
      Step(ctx, st, i).assignments == st.assignments
        + if choice.Bind? then [Assignment(c.componentId, c.role, c.target, choice.target)] else []
    ensures Decide(ctx, st.connections[i], st.used, st.usedEx).Bind? ==> Unbound(st.connections[i].target)
  {
  }

  lemma {:induction false} PassEntries(ctx: Context, st: State, n: nat, k: nat) returns (i: nat)
    requires n <= |st.connections| && |st.assignments| <= k < |After(ctx, st, n).assignments|
    ensures i < n && ChosenEntry(ctx, st, i, After(ctx, st, n).assignments[k])
  {
    var before := After(ctx, st, n - 1);
    StepAdds(ctx, before, n - 1);
    AfterConnections(ctx, st, n - 1, n - 1);
    hide Step, Decide;
    if k < |before.assignments| {
      i := PassEntries(ctx, st, n - 1, k);
    } else {
      i := n - 1;
    }
  }

  lemma {:induction false} PassKeepsEntries(ctx: Context, st: State, n: nat)
    requires n <= |st.connections|
    ensures st.assignments <= After(ctx, st, n).assignments
  {
    if n > 0 {
      PassKeepsEntries(ctx, st, n - 1);
    }
  }

  lemma {:induction false} LockEntries(ctx: Context, st: State, n: nat, k: nat) returns (i: nat)
    requires n <= |st.connections| && st.assignments == [] && k < |LocksAfter(ctx, st, n).assignments|
    ensures i < n && LockEntry(ctx, st.connections[i], LocksAfter(ctx, st, n).assignments[k])
  {
    var before := LocksAfter(ctx, st, n - 1);
    LocksAfterConnections(ctx, st, n - 1, n - 1);
    if k < |before.assignments| {
      i := LockEntries(ctx, st, n - 1, k);
    } else {
      i := n - 1;
    }
  }

  /** Every entry of `assigned` filled a target that was unbound, and says exactly how. */
  lemma EntriesDescribeTheChange(d: Design, library: Library, k: nat)
    requires k < |Solve(d, library).assignments|
    ensures Unbound(Solve(d, library).assignments[k].oldTarget)
    ensures Describes(Solve(d, library).assignments[k], d.connections, Solve(d, library).design.connections)
  {
    var board := BoardOf(d, library).value;
    var ctx := ContextOf(d, library, board);
    var st := Locked(d, ctx);
    var n := |d.connections|;
    PassKeepsEntries(ctx, st, n);
    if k < |st.assignments| {
      var i := LockEntries(ctx, Start(d, ctx), n, k);
      SolvedConnection(d, library, board, i);
    } else {
      var i := PassEntries(ctx, st, n, k);
      SolvedConnection(d, library, board, i);
    }
  }

  lemma {:induction false} LockEntryIsIn(ctx: Context, st: State, n: nat, i: nat, a: Assignment)
    requires i < n <= |st.connections| && LockEntry(ctx, st.connections[i], a)
    ensures a in LocksAfter(ctx, st, n).assignments
  {
    LocksAfterConnections(ctx, st, n - 1, n - 1);
    if i < n - 1 {
      LockEntryIsIn(ctx, st, n - 1, i, a);
    }
  }

  lemma {:induction false} ChosenEntryIsIn(ctx: Context, st: State, n: nat, i: nat, a: Assignment)
    requires i < n <= |st.connections| && ChosenEntry(ctx, st, i, a)
    ensures a in After(ctx, st, n).assignments
  {
    StepAdds(ctx, After(ctx, st, n - 1), n - 1);
    AfterConnections(ctx, st, n - 1, n - 1);
    hide Step, Decide;
    if i < n - 1 {
      ChosenEntryIsIn(ctx, st, n - 1, i, a);
    }
  }

  /** Whatever the solver changed has an entry with the new target. */
  lemma ChangesHaveEntries(d: Design, library: Library, j: nat)
    requires j < |d.connections|
    ensures
      var out := Solve(d, library).design.connections;
      |out| == |d.connections| && (out[j] != d.connections[j] ==>
        exists a :: a in Solve(d, library).assignments && NamedBy(d.connections[j], a) && a.newTarget == out[j].target)
  {
    if BoardOf(d, library).Some? {
      var board := BoardOf(d, library).value;
      var ctx := ContextOf(d, library, board);
      var st, n := Locked(d, ctx), |d.connections|;
      var c, choice := d.connections[j], Choice(ctx, st, j);
      SolvedConnection(d, library, board, j);
      PassKeepsEntries(ctx, st, n);
      if choice.Bind? {
        AfterConnections(ctx, st, j, j);
        StepAdds(ctx, After(ctx, st, j), j);
        ChosenEntryIsIn(ctx, st, n, j, Assignment(c.componentId, c.role, st.connections[j].target, choice.target));
      } else if st.connections[j] != c {
        LockEntryIsIn(ctx, Start(d, ctx), n, j,
                      Assignment(c.componentId, c.role, Gpio(""), Gpio(LockFor(ctx, c).value)));
      }
    }
  }

  // ------------------------------------------------------------- replaying

  /** Every connection an entry names ends with that entry's target. */
  ghost predicate EntriesHold(assignments: seq<Assignment>, out: seq<Connection>)
  {
    forall a, j | a in assignments && 0 <= j < |out| && NamedBy(out[j], a) :: out[j].target == a.newTarget
  }

  lemma HeldIsReplayed(d: Design, library: Library, j: nat)
    requires j < |d.connections| && EntriesHold(Solve(d, library).assignments, Solve(d, library).design.connections)
    ensures
      var r := Solve(d, library);
      && |r.design.connections| == |d.connections| == |Replay(d.connections, r.assignments)|
      && Replay(d.connections, r.assignments)[j] == r.design.connections[j]
  {
    var r := Solve(d, library);
    hide Solve, Replay, LastFor;
    SolveFrame(d, library);
    ChangesHaveEntries(d, library, j);
    ReplayedConnection(d.connections, r.assignments, j);
  }

  lemma ReplayedIsHeld(d: Design, library: Library, j: nat, a: Assignment)
    requires j < |d.connections| && a in Solve(d, library).assignments && NamedBy(d.connections[j], a)
    requires Replay(d.connections, Solve(d, library).assignments) == Solve(d, library).design.connections
    ensures |Solve(d, library).design.connections| == |d.connections|
    ensures Solve(d, library).design.connections[j].target == a.newTarget
  {
    var r := Solve(d, library);
    hide Solve, Replay, LastFor;
    var k :| 0 <= k < |r.assignments| && r.assignments[k] == a;
    EntriesDescribeTheChange(d, library, k);
    var i :| 0 <= i < |d.connections| && d.connections[i] == Connection(a.componentId, a.role, a.oldTarget)
      && r.design.connections[i] == Connection(a.componentId, a.role, a.newTarget);
    ReplayedConnection(d.connections, r.assignments, i);
    ReplayedConnection(d.connections, r.assignments, j);
    SameLast(d.connections[i], d.connections[j], r.assignments);
  }

  /** Replaying `assigned` over the input gives the output exactly when every connection an
      entry names has the entry's target: the connections of one (component, role) pair, once
      one of them is assigned, all end alike. */
  lemma ReplayGivesOutputIff(d: Design, library: Library)
    ensures
      var r := Solve(d, library);
      Replay(d.connections, r.assignments) == r.design.connections <==> EntriesHold(r.assignments, r.design.connections)
  {
    var r := Solve(d, library);
    var out, replayed := r.design.connections, Replay(d.connections, r.assignments);
    hide Solve, Replay;
    SolveFrame(d, library);
    ReplayLength(d.connections, r.assignments);
    if EntriesHold(r.assignments, out) {
      forall j | 0 <= j < |out| ensures replayed[j] == out[j] {
        HeldIsReplayed(d, library, j);
      }
    }
    if replayed == out {
      forall a, j | a in r.assignments && 0 <= j < |out| && NamedBy(out[j], a) ensures out[j].target == a.newTarget {
        ReplayedIsHeld(d, library, j, a);
      }
    }
  }

  /** With distinct pairs, then, always. */
  lemma ReplayGivesOutput(d: Design, library: Library)
    requires DistinctRoles(d.connections)
    ensures Solve(d, library).design
         == d.(connections := Replay(d.connections, Solve(d, library).assignments))
  {
    var r := Solve(d, library);
    hide Solve, Replay;
    SolveFrame(d, library);
    forall a, j | a in r.assignments && 0 <= j < |d.connections| && NamedBy(r.design.connections[j], a)
      ensures r.design.connections[j].target == a.newTarget
    {
      var k :| 0 <= k < |r.assignments| && r.assignments[k] == a;
      EntriesDescribeTheChange(d, library, k);
    }
    ReplayGivesOutputIff(d, library);
  }

  const REPEATED := Design(Some("b"), [Component("c", "part", [], None)], [Bus("i2c0", "i2c", map[])],
                           [Connection("c", "SDA", OnBus("")), Connection("c", "SDA", Rail("3V3"))])

  /** Without them it can fail: the entry for the bus pin names the powered connection too. */
  lemma RepeatedPairIsLost()
    ensures
      var r := Solve(REPEATED, SolverIdempotence.UNNAMED_LIBRARY);
      Replay(REPEATED.connections, r.assignments) != r.design.connections
  {
    var d, library := REPEATED, SolverIdempotence.UNNAMED_LIBRARY;
    var board := library.boards["b"];
    var ctx := ContextOf(d, library, board);
    assert FindComponent(d.components, "c") == Some(d.components[0]);
    assert FirstBus(d.buses, "i2c") == Some("i2c0");
    SolvedConnection(d, library, board, 0);
    assert Choice(ctx, Locked(d, ctx), 0) == Bind(OnBus("i2c0"));
    hide Solve, Replay, Choice;
    SolveFrame(d, library);
    ChangesHaveEntries(d, library, 0);
    ReplayGivesOutputIff(d, library);
  }
}
