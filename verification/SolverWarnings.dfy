/** What `unresolved` says: after the lock warnings, one warning for each connection the solver
    leaves unbound, in order, and none for any other. */
module SolverWarnings {
  import opened Options
  import opened DesignModel
  import opened PinSolver
  import opened SolverTrace
  import opened SolverIdempotence

  /** The warnings of the first n visits. */
  function Reports(ctx: Context, st: State, n: nat): seq<Warning>
    requires n <= |st.connections|
  {
    if n == 0 then []
    else
      var c := st.connections[n - 1];
      Reports(ctx, st, n - 1)
      + if Choice(ctx, st, n - 1).Report? then [Warning(Choice(ctx, st, n - 1).code, c.componentId, c.role)] else []
  }

  lemma {:induction false} PassReports(ctx: Context, st: State, n: nat)
    requires n <= |st.connections|
    ensures After(ctx, st, n).unresolved == st.unresolved + Reports(ctx, st, n)
  {
    if n > 0 {
      PassReports(ctx, st, n - 1);
      AfterConnections(ctx, st, n - 1, n - 1);
      hide Decide;
    }
  }

  /** The indices below n whose target still reads as unbound. */
  function LeftUnbound(connections: seq<Connection>, n: nat): (left: seq<nat>)
    requires n <= |connections|
    ensures forall k :: 0 <= k < |left| ==> left[k] < n
  {
    if n == 0 then []
    else LeftUnbound(connections, n - 1) + if Unbound(connections[n - 1].target) then [n - 1] else []
  }

  lemma {:induction false} LeftUnboundHas(connections: seq<Connection>, n: nat, i: nat)
    requires n <= |connections|
    ensures i in LeftUnbound(connections, n) <==> i < n && Unbound(connections[i].target)
  {
    hide Unbound;
    if n > 0 {
      LeftUnboundHas(connections, n - 1, i);
    }
  }

  lemma {:induction false} LeftUnboundAscends(connections: seq<Connection>, n: nat)
    requires n <= |connections|
    ensures forall j, k :: 0 <= j < k < |LeftUnbound(connections, n)| ==>
      LeftUnbound(connections, n)[j] < LeftUnbound(connections, n)[k]
  {
    hide Unbound;
    if n > 0 {
      LeftUnboundAscends(connections, n - 1);
    }
  }

  lemma LeftUnboundExactly(connections: seq<Connection>, n: nat)
    requires n <= |connections|
    ensures
      var left := LeftUnbound(connections, n);
      && (forall i: nat :: i in left <==> i < n && Unbound(connections[i].target))
      && (forall j, k :: 0 <= j < k < |left| ==> left[j] < left[k])
  {
    hide LeftUnbound, Unbound;
    LeftUnboundAscends(connections, n);
    forall i: nat {
      LeftUnboundHas(connections, n, i);
    }
  }

  /** A visit reports exactly when it leaves the target unbound, unless it hands out an empty id. */
  lemma ReportsIffLeft(ctx: Context, st: State, i: nat)
    requires i < |st.connections| && !BindsUnbound(ctx, st)
    ensures Choice(ctx, st, i).Report? <==> Unbound(Rebound(st.connections[i], Choice(ctx, st, i)).target)
  {
  }

  /** The warning, and the decision it reports, of connection i. */
  predicate Names(ctx: Context, st: State, i: nat, w: Warning)
  {
    && i < |st.connections| && Choice(ctx, st, i).Report?
    && w == Warning(Choice(ctx, st, i).code, st.connections[i].componentId, st.connections[i].role)
  }

  lemma {:induction false} ReportsAreLeft(ctx: Context, st: State, out: seq<Connection>, n: nat)
    requires n <= |st.connections| == |out| && !BindsUnbound(ctx, st)
    requires forall i :: 0 <= i < n ==> out[i] == Rebound(st.connections[i], Choice(ctx, st, i))
    ensures
      var left := LeftUnbound(out, n);
      |Reports(ctx, st, n)| == |left| && forall k :: 0 <= k < |left| ==> Names(ctx, st, left[k], Reports(ctx, st, n)[k])
  {
    hide BindsUnbound, Choice, Unbound;
    if n > 0 {
      ReportsAreLeft(ctx, st, out, n - 1);
      ReportsIffLeft(ctx, st, n - 1);
    }
  }

  /** An empty id bound leaves a target unbound and unreported. */
  predicate BindsEmpty(ctx: Context, st: State, i: nat)
    requires i < |st.connections|
  {
    Choice(ctx, st, i).Bind? && Unbound(Choice(ctx, st, i).target)
  }

  lemma LeftIff(ctx: Context, st: State, i: nat)
    requires i < |st.connections|
    ensures Unbound(Rebound(st.connections[i], Choice(ctx, st, i)).target)
       <==> Choice(ctx, st, i).Report? || BindsEmpty(ctx, st, i)
    ensures !(Choice(ctx, st, i).Report? && BindsEmpty(ctx, st, i))
  {
  }

  lemma {:induction false} ReportsCount(ctx: Context, st: State, out: seq<Connection>, n: nat)
    requires n <= |st.connections| == |out|
    requires forall i :: 0 <= i < n ==> out[i] == Rebound(st.connections[i], Choice(ctx, st, i))
    ensures |Reports(ctx, st, n)| <= |LeftUnbound(out, n)|
    ensures |Reports(ctx, st, n)| == |LeftUnbound(out, n)| <==> forall i :: 0 <= i < n ==> !BindsEmpty(ctx, st, i)
  {
    hide Choice, Unbound, BindsEmpty, Rebound;
    if n > 0 {
      ReportsCount(ctx, st, out, n - 1);
      LeftIff(ctx, st, n - 1);
    }
  }

  // ------------------------------------------------------------ lock warnings

  /** Component `w` names locks the role `w` names, and no pin of its library entry has it. */
  ghost predicate LocksUndeclared(ctx: Context, w: Warning)
  {
    && w.code == "locked_pin_unknown_role"
    && FindComponent(ctx.components, w.componentId).Some? && ctx.Entry(w.componentId).Some?
    && (exists l :: l in FindComponent(ctx.components, w.componentId).value.locks && l.role == w.role)
    && (forall p | p in ctx.Entry(w.componentId).value.pins :: p.role != w.role)
  }

  /** `w` is about connection c, whose lock cannot be applied: c is no gpio connection, or is
      bound to another pin. */
  predicate LockClashes(ctx: Context, c: Connection, w: Warning)
  {
    && c.componentId == w.componentId && c.role == w.role && LockFor(ctx, c).Some?
    && match w.code
       case "locked_pin_wrong_kind" => !c.target.Gpio?
       case "locked_pin_mismatch" => c.target.Gpio? && c.target.pin !in {"", LockFor(ctx, c).value}
       case _ => false
  }

  lemma {:induction false} UnknownLocksHas(id: string, pins: seq<LibPin>, locks: seq<Lock>, n: nat, w: Warning)
    requires n <= |locks|
    ensures w in UnknownLocks(id, pins, locks, n)
      <==> w == Warning("locked_pin_unknown_role", id, w.role) && FindRole(pins, w.role).None?
           && exists k :: 0 <= k < n && locks[k].role == w.role
  {
    hide FindRole;
    if n > 0 {
      UnknownLocksHas(id, pins, locks, n - 1, w);
    }
  }

  lemma UnknownLocksOfHas(ctx: Context, id: string, w: Warning)
    ensures w in UnknownLocksOf(ctx, id) <==> w.componentId == id && LocksUndeclared(ctx, w)
  {
    hide UnknownLocks, FindRole, FindComponent, LibraryEntry;
    var comp, entry := FindComponent(ctx.components, id), ctx.Entry(id);
    if comp.Some? && entry.Some? {
      UnknownLocksHas(id, entry.value.pins, comp.value.locks, |comp.value.locks|, w);
      assert FindRole(entry.value.pins, w.role).None? <==> forall p | p in entry.value.pins :: p.role != w.role;
    }
  }

  lemma {:induction false} AllUnknownLocksHas(ctx: Context, ids: seq<string>, n: nat, w: Warning)
    requires n <= |ids|
    ensures w in AllUnknownLocks(ctx, ids, n) <==> w.componentId in ids[..n] && LocksUndeclared(ctx, w)
  {
    hide UnknownLocksOf, LocksUndeclared;
    if n > 0 {
      AllUnknownLocksHas(ctx, ids, n - 1, w);
      UnknownLocksOfHas(ctx, ids[n - 1], w);
      assert ids[..n] == ids[..n - 1] + [ids[n - 1]];
    }
  }

  lemma LockStepWarns(ctx: Context, st: State, i: nat, w: Warning)
    requires i < |st.connections|
    ensures w in LockStep(ctx, st, i).unresolved
       <==> w in st.unresolved || LockClashes(ctx, st.connections[i], w)
  {
    hide LockFor;
  }

  lemma {:induction false} LockPassWarns(ctx: Context, st: State, n: nat, w: Warning)
    requires n <= |st.connections|
    ensures w in LocksAfter(ctx, st, n).unresolved
       <==> w in st.unresolved || exists j :: 0 <= j < n && LockClashes(ctx, st.connections[j], w)
  {
    hide LockStep, LockClashes;
    if n > 0 {
      LockPassWarns(ctx, st, n - 1, w);
      LocksAfterConnections(ctx, st, n - 1, n - 1);
      LockStepWarns(ctx, LocksAfter(ctx, st, n - 1), n - 1, w);
    }
  }

  /** The lock warnings, exactly: a locked role the library entry does not declare, and each
      connection whose lock is for another kind of target or another pin. */
  lemma LockWarningsExactly(d: Design, ctx: Context, w: Warning)
    requires ctx.components == d.components
    ensures w in Locked(d, ctx).unresolved
       <==> LocksUndeclared(ctx, w) || exists c :: c in d.connections && LockClashes(ctx, c, w)
  {
    hide LocksAfter, LockClashes, AllUnknownLocks, FindComponent, LibraryEntry, UsedGpioPins, UsedExpanderPins;
    var ids := ComponentIds(d.components);
    AllUnknownLocksHas(ctx, ids, |ids|, w);
    assert ids[..|ids|] == ids;
    LockPassWarns(ctx, Start(d, ctx), |d.connections|, w);
    if LocksUndeclared(ctx, w) {
      assert FindComponent(d.components, w.componentId).value in d.components;
    }
    if c :| c in d.connections && LockClashes(ctx, c, w) {
      var j :| 0 <= j < |d.connections| && d.connections[j] == c;
      assert LockClashes(ctx, d.connections[j], w);
    }
  }

  // ------------------------------------------------------------- all warnings

  /** After solving, `unresolved` is the lock warnings and then, for the connections still
      unbound in order, one warning each: its component, its role, its decision's code. That
      is so exactly when no empty id was handed out; else a connection stays unreported. */
  lemma UnresolvedExactly(d: Design, library: Library, board: Board)
    requires BoardOf(d, library) == Some(board)
    ensures
      var ctx := ContextOf(d, library, board);
      var locks, out := Locked(d, ctx).unresolved, Solve(d, library).design.connections;
      var left, unresolved := LeftUnbound(out, |out|), Solve(d, library).unresolved;
      && locks <= unresolved
      && (|unresolved| == |locks| + |left| <==> !HandsOutEmptyId(d, library))
      && (!HandsOutEmptyId(d, library) ==>
            forall k :: 0 <= k < |left| ==> Names(ctx, Locked(d, ctx), left[k], unresolved[|locks| + k]))
  {
    hide *;
    var ctx := ContextOf(d, library, board);
    EmptyIdIsBindsUnbound(d, library, board);
    SolveReports(d, library, board);
    OneEach(ctx, Locked(d, ctx), Solve(d, library).design.connections);
  }

  lemma SolveReports(d: Design, library: Library, board: Board)
    requires BoardOf(d, library) == Some(board)
    ensures
      var st := Locked(d, ContextOf(d, library, board));
      var out := Solve(d, library).design.connections;
      && |out| == |st.connections|
      && Solve(d, library).unresolved == st.unresolved + Reports(ContextOf(d, library, board), st, |out|)
      && forall i :: 0 <= i < |out| ==>
         out[i] == Rebound(st.connections[i], Choice(ContextOf(d, library, board), st, i))
  {
    var ctx := ContextOf(d, library, board);
    PassReports(ctx, Locked(d, ctx), |d.connections|);
    forall i | 0 <= i < |d.connections| {
      SolvedConnection(d, library, board, i);
    }
    hide Locked, Reports, Choice, Rebound;
  }

  lemma OneEach(ctx: Context, st: State, out: seq<Connection>)
    requires |st.connections| == |out|
    requires forall i :: 0 <= i < |out| ==> out[i] == Rebound(st.connections[i], Choice(ctx, st, i))
    ensures
      var left, reports := LeftUnbound(out, |out|), Reports(ctx, st, |out|);
      && (|reports| == |left| <==> !BindsUnbound(ctx, st))
      && (!BindsUnbound(ctx, st) ==> forall k :: 0 <= k < |left| ==> Names(ctx, st, left[k], reports[k]))
  {
    hide *;
    ReportsCount(ctx, st, out, |out|);
    BindsUnboundIff(ctx, st);
    if !BindsUnbound(ctx, st) {
      ReportsAreLeft(ctx, st, out, |out|);
    }
  }

  lemma BindsUnboundIff(ctx: Context, st: State)
    ensures BindsUnbound(ctx, st) <==> exists i :: 0 <= i < |st.connections| && BindsEmpty(ctx, st, i)
  {
    hide Choice, Unbound;
    if BindsUnbound(ctx, st) {
      var i :| 0 <= i < |st.connections| && Choice(ctx, st, i).Bind? && Unbound(Choice(ctx, st, i).target);
      assert BindsEmpty(ctx, st, i);
    }
    if i :| 0 <= i < |st.connections| && BindsEmpty(ctx, st, i) {
      assert Choice(ctx, st, i).Bind?;
    }
  }
}
