/** What each visit of the two passes saw and did: the frame of the solver. */
module SolverTrace {
  import opened Options
  import opened DesignModel
  import opened PinCandidates
  import opened PinSolver

  // ------------------------------------------------------------- greedy pass

  /** The decision taken at connection i, with what was used when the pass got there. */
  function Choice(ctx: Context, st: State, i: nat): Outcome
    requires i < |st.connections|
  {
    Decide(ctx, st.connections[i], After(ctx, st, i).used, After(ctx, st, i).usedEx)
  }

  function Rebound(c: Connection, o: Outcome): Connection
  {
    if o.Bind? then c.(target := o.target) else c
  }

  /** Visiting connection i edits that connection only, once. */
  lemma {:induction false} AfterConnections(ctx: Context, st: State, n: nat, j: nat)
    requires n <= |st.connections| && j < |st.connections|
    ensures After(ctx, st, n).connections[j]
         == if j < n then Rebound(st.connections[j], Choice(ctx, st, j)) else st.connections[j]
  {
    if n > 0 {
      AfterConnections(ctx, st, n - 1, j);
      AfterConnections(ctx, st, n - 1, n - 1);
    }
  }

  lemma {:induction false} AfterGrows(ctx: Context, st: State, m: nat, n: nat)
    requires m <= n <= |st.connections|
    ensures After(ctx, st, m).used <= After(ctx, st, n).used
    ensures After(ctx, st, m).usedEx <= After(ctx, st, n).usedEx
  {
    if m < n {
      AfterGrows(ctx, st, m, n - 1);
    }
  }

  /** One visit takes at most the pin it binds. */
  lemma StepUsed(ctx: Context, st: State, i: nat, p: string)
    requires i < |st.connections|
    ensures p in Step(ctx, st, i).used
       <==> p in st.used || Decide(ctx, st.connections[i], st.used, st.usedEx) == Bind(Gpio(p))
  {
    hide Decide;
  }

  lemma {:induction false} AfterUsed(ctx: Context, st: State, n: nat, p: string)
    requires n <= |st.connections|
    ensures p in After(ctx, st, n).used
       <==> p in st.used || exists j :: 0 <= j < n && Choice(ctx, st, j) == Bind(Gpio(p))
  {
    hide Decide, Step;
    if n > 0 {
      AfterUsed(ctx, st, n - 1, p);
      AfterConnections(ctx, st, n - 1, n - 1);
      StepUsed(ctx, After(ctx, st, n - 1), n - 1, p);
      var choice := Choice(ctx, st, n - 1);
    }
  }

  predicate TakesSlot(o: Outcome, s: Slot)
  {
    o.Bind? && o.target.ExpanderPin? && o.target.expanderId == s.0 && o.target.number == Some(s.1)
  }

  lemma StepUsedEx(ctx: Context, st: State, i: nat, s: Slot)
    requires i < |st.connections|
    ensures s in Step(ctx, st, i).usedEx
       <==> s in st.usedEx || TakesSlot(Decide(ctx, st.connections[i], st.used, st.usedEx), s)
  {
    hide Decide;
  }

  lemma {:induction false} AfterUsedEx(ctx: Context, st: State, n: nat, s: Slot)
    requires n <= |st.connections|
    ensures s in After(ctx, st, n).usedEx
       <==> s in st.usedEx || exists j :: 0 <= j < n && TakesSlot(Choice(ctx, st, j), s)
  {
    hide Decide, Step, TakesSlot;
    if n > 0 {
      AfterUsedEx(ctx, st, n - 1, s);
      AfterConnections(ctx, st, n - 1, n - 1);
      StepUsedEx(ctx, After(ctx, st, n - 1), n - 1, s);
      var choice := Choice(ctx, st, n - 1);
    }
  }

  // --------------------------------------------------------------- lock pass

  /** A lock fills an unbound gpio target and nothing else. */
  function LockedConnection(ctx: Context, c: Connection): Connection
  {
    if c.target == Gpio("") && LockFor(ctx, c).Some? then c.(target := Gpio(LockFor(ctx, c).value)) else c
  }

  /** Connection c's lock keeps pin p away from the greedy pass. */
  predicate ReservedBy(ctx: Context, c: Connection, p: string)
  {
    c.target.Gpio? && LockFor(ctx, c) == Some(p)
  }

  lemma {:induction false} LocksAfterConnections(ctx: Context, st: State, n: nat, j: nat)
    requires n <= |st.connections| && j < |st.connections|
    ensures LocksAfter(ctx, st, n).connections[j]
         == if j < n then LockedConnection(ctx, st.connections[j]) else st.connections[j]
  {
    if n > 0 {
      LocksAfterConnections(ctx, st, n - 1, j);
      LocksAfterConnections(ctx, st, n - 1, n - 1);
    }
  }

  lemma {:induction false} LocksAfterUsed(ctx: Context, st: State, n: nat, p: string)
    requires n <= |st.connections|
    ensures p in LocksAfter(ctx, st, n).used
       <==> p in st.used || exists j :: 0 <= j < n && ReservedBy(ctx, st.connections[j], p)
    ensures LocksAfter(ctx, st, n).usedEx == st.usedEx
  {
    if n > 0 {
      LocksAfterUsed(ctx, st, n - 1, p);
      LocksAfterConnections(ctx, st, n - 1, n - 1);
      var c := st.connections[n - 1];
      assert LocksAfter(ctx, st, n - 1).connections[n - 1] == c;
      assert p in LocksAfter(ctx, st, n).used
        <==> p in LocksAfter(ctx, st, n - 1).used || ReservedBy(ctx, c, p);
    }
  }

  // ------------------------------------------------------- the whole of Solve

  /** Everything `Solve` leaves at connection j, in terms of the design it was given. */
  lemma SolvedConnection(d: Design, library: Library, board: Board, j: nat)
    requires BoardOf(d, library) == Some(board) && j < |d.connections|
    ensures
      var ctx := ContextOf(d, library, board);
      var locked := LockedConnection(ctx, d.connections[j]);
      && Locked(d, ctx).connections[j] == locked
      && Solve(d, library).design.connections[j] == Rebound(locked, Choice(ctx, Locked(d, ctx), j))
  {
    var ctx := ContextOf(d, library, board);
    LocksAfterConnections(ctx, Start(d, ctx), |d.connections|, j);
    AfterConnections(ctx, Locked(d, ctx), |d.connections|, j);
  }

  /** Connections bound on entry keep their targets; no connection changes owner or role;
      the rest of the document is what it was. */
  lemma SolveFrame(d: Design, library: Library)
    ensures
      var out := Solve(d, library).design;
      && out.board == d.board && out.components == d.components && out.buses == d.buses
      && |out.connections| == |d.connections|
      && (forall j :: 0 <= j < |d.connections| ==>
            && out.connections[j].componentId == d.connections[j].componentId
            && out.connections[j].role == d.connections[j].role
            && (!Unbound(d.connections[j].target) ==> out.connections[j] == d.connections[j]))
  {
    if BoardOf(d, library).Some? {
      forall j | 0 <= j < |d.connections| {
        SolvedConnection(d, library, BoardOf(d, library).value, j);
      }
    }
  }

  /** What is used once the locks are in: bound pins, bus pins and reserved pins. */
  lemma UsedAfterLocks(d: Design, ctx: Context, p: string)
    ensures p in Locked(d, ctx).used
       <==> p in UsedGpioPins(d) || exists j :: 0 <= j < |d.connections| && ReservedBy(ctx, d.connections[j], p)
    ensures Locked(d, ctx).usedEx == UsedExpanderPins(d.connections)
  {
    LocksAfterUsed(ctx, Start(d, ctx), |d.connections|, p);
  }
}
