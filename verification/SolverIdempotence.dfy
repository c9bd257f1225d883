/** Solving a solved design. It assigns nothing, unless the first run handed out an id that is
    the empty string: such a target still reads as unbound, so the second run fills it again. */
module SolverIdempotence {
  import opened Options
  import opened DesignModel
  import opened PinCandidates
  import opened PinSolver
  import opened SolverTrace
  import opened SolverSafety

  // ---------------------------------------------------- the k-th free slot

  function FreeSlots(slots: seq<Slot>, used: set<Slot>): seq<Slot>
  {
    if slots == [] then []
    else if slots[0] in used then FreeSlots(slots[1..], used)
    else [slots[0]] + FreeSlots(slots[1..], used)
  }

  ghost predicate Distinct<T(!new)>(s: seq<T>)
  {
    forall i, j :: 0 <= i < j < |s| ==> s[i] != s[j]
  }

  lemma {:induction false} FirstOfFreeSlots(slots: seq<Slot>, used: set<Slot>)
    ensures FirstFreeSlot(slots, used)
         == if FreeSlots(slots, used) == [] then None else Some(FreeSlots(slots, used)[0])
    ensures forall s :: s in FreeSlots(slots, used) <==> s in slots && s !in used
  {
    if slots != [] {
      assert slots == [slots[0]] + slots[1..];
      FirstOfFreeSlots(slots[1..], used);
    }
  }

  lemma {:induction false} UseOtherSlot(slots: seq<Slot>, used: set<Slot>, s: Slot)
    requires s !in slots
    ensures FreeSlots(slots, used + {s}) == FreeSlots(slots, used)
  {
    if slots != [] {
      assert slots == [slots[0]] + slots[1..];
      UseOtherSlot(slots[1..], used, s);
    }
  }

  lemma {:induction false} UseFirstFreeSlot(slots: seq<Slot>, used: set<Slot>)
    requires Distinct(slots) && FreeSlots(slots, used) != []
    ensures FreeSlots(slots, used + {FreeSlots(slots, used)[0]}) == FreeSlots(slots, used)[1..]
  {
    if slots[0] in used {
      UseFirstFreeSlot(slots[1..], used);
    } else {
      UseOtherSlot(slots[1..], used, slots[0]);
    }
  }

  lemma {:induction false} SlotsDistinct(ctx: Context, id: string, n: nat)
    requires n <= ctx.SizeOf(id)
    ensures Distinct(ctx.SlotsFrom(id, n))
    decreases ctx.SizeOf(id) - n
  {
    if n < ctx.SizeOf(id) {
      SlotsDistinct(ctx, id, n + 1);
      SlotsInRange(ctx, id, n + 1, (id, n));
    }
  }

  lemma {:induction false} AllSlotsDistinct(ctx: Context, ids: seq<string>)
    requires Distinct(ids)
    ensures Distinct(ctx.AllSlots(ids))
  {
    if ids != [] {
      var first, rest := ctx.SlotsFrom(ids[0], 0), ctx.AllSlots(ids[1..]);
      SlotsDistinct(ctx, ids[0], 0);
      AllSlotsDistinct(ctx, ids[1..]);
      forall i, j | 0 <= i < |first| && 0 <= j < |rest| ensures first[i] != rest[j] {
        SlotsInRange(ctx, ids[0], 0, first[i]);
        AllSlotsInRange(ctx, ids[1..], rest[j]);
      }
    }
  }

  lemma {:induction false} ComponentIdsDistinct(components: seq<Component>)
    ensures Distinct(ComponentIds(components))
  {
    if components != [] {
      ComponentIdsDistinct(components[..|components| - 1]);
    }
  }

  lemma {:induction false} ExpandersDistinct(ctx: Context, ids: seq<string>)
    requires Distinct(ids)
    ensures Distinct(ctx.ExpandersFrom(ids))
  {
    if ids != [] {
      ExpandersDistinct(ctx, ids[1..]);
      ExpandersAreExpanders(ctx, ids[1..], ids[0]);
    }
  }

  /** How many of the first n connections ask for a slot. */
  function SlotRank(ctx: Context, connections: seq<Connection>, n: nat): nat
    requires n <= |connections|
  {
    if n == 0 then 0
    else SlotRank(ctx, connections, n - 1) + if WantsSlot(ctx, connections[n - 1]) then 1 else 0
  }

  function FreeOnEntry(ctx: Context, usedEx: set<Slot>): seq<Slot>
  {
    FreeSlots(ctx.AllSlots(ctx.Expanders()), usedEx)
  }

  function Drop<T>(s: seq<T>, n: nat): seq<T>
  {
    if n <= |s| then s[n..] else []
  }

  /** The k-th connection that asks for a slot takes the k-th slot free on entry; the slots
      left after n visits are the entry's list without its first SlotRank(n) entries. */
  lemma {:induction false} SlotsAreDealtInOrder(ctx: Context, st: State, n: nat)
    requires n <= |st.connections|
    ensures FreeSlots(ctx.AllSlots(ctx.Expanders()), After(ctx, st, n).usedEx)
         == Drop(FreeOnEntry(ctx, st.usedEx), SlotRank(ctx, st.connections, n))
  {
    if n > 0 {
      SlotsAreDealtInOrder(ctx, st, n - 1);
      AfterConnections(ctx, st, n - 1, n - 1);
      if WantsSlot(ctx, st.connections[n - 1]) {
        ComponentIdsDistinct(ctx.components);
        ExpandersDistinct(ctx, ComponentIds(ctx.components));
        AllSlotsDistinct(ctx, ctx.Expanders());
        SlotStep(ctx, st, n);
      } else {
        NoSlotStep(ctx, st, n);
      }
    }
  }

  lemma NoSlotStep(ctx: Context, st: State, n: nat)
    requires 0 < n <= |st.connections| && !WantsSlot(ctx, st.connections[n - 1])
    requires After(ctx, st, n - 1).connections[n - 1] == st.connections[n - 1]
    ensures After(ctx, st, n).usedEx == After(ctx, st, n - 1).usedEx
  {
  }

  lemma SlotStep(ctx: Context, st: State, n: nat)
    requires 0 < n <= |st.connections| && WantsSlot(ctx, st.connections[n - 1])
    requires After(ctx, st, n - 1).connections[n - 1] == st.connections[n - 1]
    requires Distinct(ctx.AllSlots(ctx.Expanders()))
    ensures
      var before := FreeSlots(ctx.AllSlots(ctx.Expanders()), After(ctx, st, n - 1).usedEx);
      FreeSlots(ctx.AllSlots(ctx.Expanders()), After(ctx, st, n).usedEx) == Drop(before, 1)
  {
    var slots := ctx.AllSlots(ctx.Expanders());
    var usedEx := After(ctx, st, n - 1).usedEx;
    FirstOfFreeSlots(slots, usedEx);
    if FreeSlots(slots, usedEx) != [] {
      UseFirstFreeSlot(slots, usedEx);
    }
  }

  // ------------------------------------------------- when an empty id is taken

  /** The decision for connection c is to bind it to the empty id: its bus type's first bus,
      or the first instance of its parent part, has no name. Needs no solving to check. */
  predicate TakesEmptyName(ctx: Context, c: Connection)
  {
    && Reachable(ctx, c)
    && ((c.target.OnBus? && DecideBus(ctx, LibPinOf(ctx, c)) == Bind(OnBus("")))
     || (c.target.OnComponent? && DecideParent(ctx, LibPinOf(ctx, c), c.componentId) == Bind(OnComponent(""))))
  }

  /** Among the slots dealt out there is one on an expander with no name. */
  predicate DealsEmptyExpander(ctx: Context, connections: seq<Connection>)
  {
    var free := FreeOnEntry(ctx, UsedExpanderPins(connections));
    exists k :: 0 <= k < |free| && k < SlotRank(ctx, connections, |connections|) && free[k].0 == ""
  }

  /** What a caller can check before solving. */
  predicate HandsOutEmptyId(d: Design, library: Library)
  {
    && BoardOf(d, library).Some?
    && (var ctx := ContextOf(d, library, BoardOf(d, library).value);
        || (exists c :: c in d.connections && TakesEmptyName(ctx, c))
        || DealsEmptyExpander(ctx, d.connections))
  }

  lemma {:induction false} RankOf(ctx: Context, connections: seq<Connection>, k: nat) returns (i: nat)
    requires k < SlotRank(ctx, connections, |connections|)
    ensures i < |connections| && WantsSlot(ctx, connections[i]) && SlotRank(ctx, connections, i) == k
  {
    i := |connections|;
    while SlotRank(ctx, connections, i) > k
      invariant i <= |connections| && SlotRank(ctx, connections, i) >= k
      invariant i < |connections| ==> SlotRank(ctx, connections, i + 1) > k
      invariant i == |connections| ==> SlotRank(ctx, connections, i) > k
      decreases i
    {
      i := i - 1;
    }
  }

  lemma {:induction false} RankGrows(ctx: Context, connections: seq<Connection>, m: nat, n: nat)
    requires m <= n <= |connections|
    ensures SlotRank(ctx, connections, m) <= SlotRank(ctx, connections, n)
  {
    if m < n {
      RankGrows(ctx, connections, m, n - 1);
    }
  }

  /** Locks do not touch targets that are not gpio, nor reach a gpio target's kind. */
  lemma {:induction false} LocksKeepRank(ctx: Context, before: seq<Connection>, after: seq<Connection>, n: nat)
    requires |after| == |before| && n <= |before|
    requires forall j :: 0 <= j < |before| ==> after[j] == LockedConnection(ctx, before[j])
    ensures SlotRank(ctx, after, n) == SlotRank(ctx, before, n)
  {
    if n > 0 {
      LocksKeepRank(ctx, before, after, n - 1);
    }
  }

  /** Some visit of the first run binds a connection to a target that still reads unbound. */
  ghost predicate BindsUnbound(ctx: Context, st: State)
  {
    exists i :: 0 <= i < |st.connections| && Choice(ctx, st, i).Bind? && Unbound(Choice(ctx, st, i).target)
  }

  lemma SlotChoice(ctx: Context, st: State, i: nat)
    requires i < |st.connections| && WantsSlot(ctx, st.connections[i])
    ensures
      var free := FreeOnEntry(ctx, st.usedEx);
      var rank := SlotRank(ctx, st.connections, i);
      if rank < |free| then TakesSlot(Choice(ctx, st, i), free[rank]) else !Choice(ctx, st, i).Bind?
  {
    SlotsAreDealtInOrder(ctx, st, i);
    FirstOfFreeSlots(ctx.AllSlots(ctx.Expanders()), After(ctx, st, i).usedEx);
  }

  lemma EmptyNameIsChosen(ctx: Context, before: Connection, st: State, i: nat)
    requires i < |st.connections| && st.connections[i] == LockedConnection(ctx, before)
    ensures !before.target.ExpanderPin? ==>
      (TakesEmptyName(ctx, before) <==> Choice(ctx, st, i).Bind? && Unbound(Choice(ctx, st, i).target))
  {
    if Choice(ctx, st, i).Bind? && Choice(ctx, st, i).target.Gpio? {
      GpioChoice(ctx, st, i, Choice(ctx, st, i).target.pin);
    }
  }

  lemma EmptyExpanderIsChosen(ctx: Context, before: seq<Connection>, st: State) returns (i: nat)
    requires |st.connections| == |before| && st.usedEx == UsedExpanderPins(before)
    requires SlotRank(ctx, st.connections, |before|) == SlotRank(ctx, before, |before|)
    requires DealsEmptyExpander(ctx, before)
    ensures i < |before| && Choice(ctx, st, i).Bind? && Unbound(Choice(ctx, st, i).target)
  {
    var free := FreeOnEntry(ctx, st.usedEx);
    var k :| 0 <= k < |free| && k < SlotRank(ctx, before, |before|) && free[k].0 == "";
    i := RankOf(ctx, st.connections, k);
    SlotChoice(ctx, st, i);
  }

  lemma ChosenIsEmptyExpander(ctx: Context, before: seq<Connection>, st: State, i: nat)
    requires |st.connections| == |before| && st.usedEx == UsedExpanderPins(before)
    requires SlotRank(ctx, st.connections, |before|) == SlotRank(ctx, before, |before|)
    requires i < |before| && st.connections[i].target.ExpanderPin?
    requires Choice(ctx, st, i).Bind? && Unbound(Choice(ctx, st, i).target)
    ensures DealsEmptyExpander(ctx, before)
  {
    SlotChoice(ctx, st, i);
    RankGrows(ctx, st.connections, i + 1, |before|);
    var rank := SlotRank(ctx, st.connections, i);
    assert FreeOnEntry(ctx, st.usedEx)[rank].0 == "";
  }

  /** The check before solving is exact. */
  lemma EmptyIdIsBindsUnbound(d: Design, library: Library, board: Board)
    requires BoardOf(d, library) == Some(board)
    ensures HandsOutEmptyId(d, library)
       <==> BindsUnbound(ContextOf(d, library, board), Locked(d, ContextOf(d, library, board)))
  {
    var ctx := ContextOf(d, library, board);
    var st := Locked(d, ctx);
    var n := |d.connections|;
    UsedAfterLocks(d, ctx, "");
    forall j | 0 <= j < n ensures st.connections[j] == LockedConnection(ctx, d.connections[j]) {
      SolvedConnection(d, library, board, j);
    }
    LocksKeepRank(ctx, d.connections, st.connections, n);
    forall j | 0 <= j < n
      ensures !d.connections[j].target.ExpanderPin? ==>
        (TakesEmptyName(ctx, d.connections[j]) <==> Choice(ctx, st, j).Bind? && Unbound(Choice(ctx, st, j).target))
    {
      EmptyNameIsChosen(ctx, d.connections[j], st, j);
    }
    if DealsEmptyExpander(ctx, d.connections) {
      var i := EmptyExpanderIsChosen(ctx, d.connections, st);
    } else if exists c :: c in d.connections && TakesEmptyName(ctx, c) {
      var c :| c in d.connections && TakesEmptyName(ctx, c);
      var i :| 0 <= i < n && d.connections[i] == c;
      assert Choice(ctx, st, i).Bind?;
    } else if BindsUnbound(ctx, st) {
      var i :| 0 <= i < n && Choice(ctx, st, i).Bind? && Unbound(Choice(ctx, st, i).target);
      assert st.connections[i].target.ExpanderPin?;
      ChosenIsEmptyExpander(ctx, d.connections, st, i);
    }
  }

  // ------------------------------------------------------------ the second run

  /** A pass in which no connection has anything to bind leaves everything but warnings. */
  lemma {:induction false} QuietPass(ctx: Context, st: State, n: nat)
    requires n <= |st.connections|
    requires forall i :: 0 <= i < n ==> !Decide(ctx, st.connections[i], st.used, st.usedEx).Bind?
    ensures After(ctx, st, n) == st.(unresolved := After(ctx, st, n).unresolved)
  {
    if n > 0 {
      QuietPass(ctx, st, n - 1);
    }
  }

  /** And a pass that assigned nothing was quiet. */
  lemma {:induction false} NothingAssignedIsQuiet(ctx: Context, st: State, n: nat, i: nat)
    requires i < n <= |st.connections|
    requires |After(ctx, st, n).assignments| == |st.assignments|
    ensures !Decide(ctx, st.connections[i], st.used, st.usedEx).Bind?
    decreases n, i
  {
    AssignmentsGrow(ctx, st, i, n);
    AssignmentsGrow(ctx, st, 0, i);
    AssignmentsGrow(ctx, st, i + 1, n);
    forall j | 0 <= j < i ensures !Decide(ctx, st.connections[j], st.used, st.usedEx).Bind? {
      NothingAssignedIsQuiet(ctx, st, n, j);
    }
    QuietPass(ctx, st, i);
  }

  lemma {:induction false} AssignmentsGrow(ctx: Context, st: State, m: nat, n: nat)
    requires m <= n <= |st.connections|
    ensures |After(ctx, st, m).assignments| <= |After(ctx, st, n).assignments|
  {
    if m < n {
      AssignmentsGrow(ctx, st, m, n - 1);
    }
  }

  /** A connection the first run could not bind cannot be bound with its final used sets. */
  lemma StillStuck(ctx: Context, st: State, i: nat)
    requires i < |st.connections| && !Choice(ctx, st, i).Bind?
    ensures
      var done := After(ctx, st, |st.connections|);
      !Decide(ctx, st.connections[i], done.used, done.usedEx).Bind?
  {
    var c := st.connections[i];
    var n := |st.connections|;
    AfterGrows(ctx, st, i, n);
    if Reachable(ctx, c) && c.target.Gpio? {
      FirstUnusedMonotone(Candidates(ctx.board, LibPinOf(ctx, c)), After(ctx, st, i).used, After(ctx, st, n).used);
      AfterUsed(ctx, st, i, "");
      AfterUsed(ctx, st, n, "");
      forall j | 0 <= j < n ensures Choice(ctx, st, j) != Bind(Gpio("")) {
        if Choice(ctx, st, j) == Bind(Gpio("")) {
          GpioChoice(ctx, st, j, "");
        }
      }
      PickIsLeastUnused(ctx.board, LibPinOf(ctx, c), After(ctx, st, i).used);
    } else if Reachable(ctx, c) && c.target.ExpanderPin? {
      FirstFreeSlotIsFree(ctx.AllSlots(ctx.Expanders()), After(ctx, st, i).usedEx);
      FirstFreeSlotIsFree(ctx.AllSlots(ctx.Expanders()), After(ctx, st, n).usedEx);
    }
  }

  // ------------------------------------------- what the second run starts from

  lemma {:induction false} LocksIdle(ctx: Context, st: State, n: nat)
    requires n <= |st.connections|
    requires forall j :: 0 <= j < n ==> LockedConnection(ctx, st.connections[j]) == st.connections[j]
    ensures LocksAfter(ctx, st, n).assignments == st.assignments
    ensures LocksAfter(ctx, st, n).connections == st.connections
  {
    if n > 0 {
      LocksIdle(ctx, st, n - 1);
    }
  }

  /** The first run's connection j, in terms of the design: what both runs see of it. */
  lemma FirstRun(d: Design, library: Library, board: Board, j: nat)
    requires BoardOf(d, library) == Some(board) && j < |d.connections|
    ensures
      var ctx := ContextOf(d, library, board);
      var out := Finished(d, ctx).connections[j];
      && LockedConnection(ctx, out) == out
      && LockFor(ctx, out) == LockFor(ctx, d.connections[j])
      && (out.target.Gpio? <==> d.connections[j].target.Gpio?)
      && (!Unbound(d.connections[j].target) ==> out == d.connections[j])
  {
    var ctx := ContextOf(d, library, board);
    SolvedConnection(d, library, board, j);
    if Choice(ctx, Locked(d, ctx), j).Bind? && Choice(ctx, Locked(d, ctx), j).target.Gpio? {
      GpioChoice(ctx, Locked(d, ctx), j, Choice(ctx, Locked(d, ctx), j).target.pin);
    }
  }

  lemma UsedComesBack(d: Design, library: Library, board: Board, p: string)
    requires BoardOf(d, library) == Some(board)
    requires p in Finished(d, ContextOf(d, library, board)).used
    ensures
      var ctx := ContextOf(d, library, board);
      p in Locked(d.(connections := Finished(d, ctx).connections), ctx).used
  {
    var ctx := ContextOf(d, library, board);
    var n := |d.connections|;
    var st := Locked(d, ctx);
    var out := Finished(d, ctx).connections;
    AfterUsed(ctx, st, n, p);
    UsedAfterLocks(d, ctx, p);
    UsedAfterLocks(d.(connections := out), ctx, p);
    if j :| 0 <= j < n && Choice(ctx, st, j) == Bind(Gpio(p)) {
      GpioChoice(ctx, st, j, p);
      SolvedConnection(d, library, board, j);
      assert out[j] in out && out[j].target == Gpio(p);
    } else if p in ConnectionPins(d.connections) {
      var j :| 0 <= j < n && d.connections[j].target == Gpio(p) && p != "";
      FirstRun(d, library, board, j);
      assert out[j] in out;
    } else if j :| 0 <= j < n && ReservedBy(ctx, d.connections[j], p) {
      FirstRun(d, library, board, j);
      assert ReservedBy(ctx, out[j], p);
    }
  }

  lemma UsedWasThere(d: Design, library: Library, board: Board, p: string)
    requires BoardOf(d, library) == Some(board)
    requires
      var ctx := ContextOf(d, library, board);
      p in Locked(d.(connections := Finished(d, ctx).connections), ctx).used
    ensures p in Finished(d, ContextOf(d, library, board)).used
  {
    var ctx := ContextOf(d, library, board);
    var n := |d.connections|;
    var st := Locked(d, ctx);
    var out := Finished(d, ctx).connections;
    AfterUsed(ctx, st, n, p);
    UsedAfterLocks(d, ctx, p);
    UsedAfterLocks(d.(connections := out), ctx, p);
    if p in ConnectionPins(out) {
      var j :| 0 <= j < n && out[j].target == Gpio(p) && p != "";
      SolvedConnection(d, library, board, j);
      if d.connections[j].target == Gpio(p) {
        assert d.connections[j] in d.connections;
      } else if Choice(ctx, st, j) != Bind(Gpio(p)) {
        assert ReservedBy(ctx, d.connections[j], p);
      }
    } else if j :| 0 <= j < n && ReservedBy(ctx, out[j], p) {
      FirstRun(d, library, board, j);
      assert ReservedBy(ctx, d.connections[j], p);
    }
  }

  lemma SlotWasThere(d: Design, library: Library, board: Board, s: Slot, j: nat)
    requires BoardOf(d, library) == Some(board) && j < |d.connections| && s.0 != ""
    requires OnSlot(Finished(d, ContextOf(d, library, board)).connections[j], s)
    ensures s in Finished(d, ContextOf(d, library, board)).usedEx
  {
    var ctx := ContextOf(d, library, board);
    AfterUsedEx(ctx, Locked(d, ctx), |d.connections|, s);
    UsedAfterLocks(d, ctx, "");
    SolvedConnection(d, library, board, j);
    if OnSlot(d.connections[j], s) {
      assert d.connections[j] in d.connections;
    } else {
      assert TakesSlot(Choice(ctx, Locked(d, ctx), j), s);
    }
  }

  lemma SlotComesBack(d: Design, library: Library, board: Board, s: Slot) returns (j: nat)
    requires BoardOf(d, library) == Some(board) && s.0 != ""
    requires s in Finished(d, ContextOf(d, library, board)).usedEx
    ensures j < |d.connections| && OnSlot(Finished(d, ContextOf(d, library, board)).connections[j], s)
  {
    var ctx := ContextOf(d, library, board);
    var st := Locked(d, ctx);
    AfterUsedEx(ctx, st, |d.connections|, s);
    UsedAfterLocks(d, ctx, "");
    if s in UsedExpanderPins(d.connections) {
      j :| 0 <= j < |d.connections| && OnSlot(d.connections[j], s);
      var t := d.connections[j].target;
      assert OnSlot(d.connections[j], s);
      assert t.ExpanderPin? && t.expanderId == s.0;
      assert !Unbound(t);
      FirstRun(d, library, board, j);
      assert Finished(d, ctx).connections[j] == d.connections[j];
      assert OnSlot(Finished(d, ctx).connections[j], s);
    } else {
      j :| 0 <= j < |d.connections| && TakesSlot(Choice(ctx, st, j), s);
      SolvedConnection(d, library, board, j);
      assert Solve(d, library).design.connections[j] == Finished(d, ctx).connections[j];
      assert OnSlot(Finished(d, ctx).connections[j], s);
    }
  }

  /** Slots recorded as used on entry to the second run are those the first run ended with,
      except the ones on an expander with no name, which read as unbound. */
  lemma SlotsCarryOver(d: Design, library: Library, board: Board, s: Slot)
    requires BoardOf(d, library) == Some(board)
    ensures
      var done := Finished(d, ContextOf(d, library, board));
      s in UsedExpanderPins(done.connections) <==> s in done.usedEx && s.0 != ""
  {
    var done := Finished(d, ContextOf(d, library, board));
    if s in UsedExpanderPins(done.connections) {
      var j :| 0 <= j < |d.connections| && OnSlot(done.connections[j], s);
      SlotWasThere(d, library, board, s, j);
    }
    if s in done.usedEx && s.0 != "" {
      var j := SlotComesBack(d, library, board, s);
      assert done.connections[j] in done.connections;
    }
  }

  /** Expander slots are never exhausted by used slots that all have a named expander, when an
      expander has no name. */
  lemma EmptyExpanderHasRoom(ctx: Context, used: set<Slot>, slot: Slot)
    requires slot in ctx.AllSlots(ctx.Expanders()) && slot !in used
    ensures FirstFreeSlot(ctx.AllSlots(ctx.Expanders()), used).Some?
  {
    FirstFreeSlotIsFree(ctx.AllSlots(ctx.Expanders()), used);
  }

  /** The state the second run's greedy pass starts from. */
  lemma SecondStart(d: Design, library: Library, board: Board)
    requires BoardOf(d, library) == Some(board)
    ensures
      var ctx := ContextOf(d, library, board);
      var done := Finished(d, ctx);
      var again := Locked(d.(connections := done.connections), ctx);
      && again.connections == done.connections && again.assignments == [] && again.used == done.used
      && again.usedEx == UsedExpanderPins(done.connections)
      && (forall s :: s in again.usedEx <==> s in done.usedEx && s.0 != "")
  {
    var ctx := ContextOf(d, library, board);
    var done := Finished(d, ctx);
    var d2 := d.(connections := done.connections);
    forall j | 0 <= j < |d.connections| {
      FirstRun(d, library, board, j);
    }
    LocksIdle(ctx, Start(d2, ctx), |d.connections|);
    UsedAfterLocks(d2, ctx, "");
    forall p ensures p in Locked(d2, ctx).used <==> p in done.used {
      if p in done.used { UsedComesBack(d, library, board, p); }
      if p in Locked(d2, ctx).used { UsedWasThere(d, library, board, p); }
    }
    forall s ensures s in UsedExpanderPins(done.connections) <==> s in done.usedEx && s.0 != "" {
      SlotsCarryOver(d, library, board, s);
    }
  }

  // ---------------------------------------------------------------- the theorem

  lemma QuietWhenNoEmptyId(d: Design, library: Library, board: Board)
    requires BoardOf(d, library) == Some(board)
    requires !BindsUnbound(ContextOf(d, library, board), Locked(d, ContextOf(d, library, board)))
    ensures
      var ctx := ContextOf(d, library, board);
      var done := Finished(d, ctx);
      forall i :: 0 <= i < |d.connections| ==> !Decide(ctx, done.connections[i], done.used, done.usedEx).Bind?
    ensures
      var ctx := ContextOf(d, library, board);
      Locked(d.(connections := Finished(d, ctx).connections), ctx).usedEx == Finished(d, ctx).usedEx
  {
    var ctx := ContextOf(d, library, board);
    var st := Locked(d, ctx);
    var done := Finished(d, ctx);
    forall i | 0 <= i < |d.connections| ensures !Decide(ctx, done.connections[i], done.used, done.usedEx).Bind? {
      SolvedConnection(d, library, board, i);
      if !Choice(ctx, st, i).Bind? {
        StillStuck(ctx, st, i);
      }
    }
    SecondStart(d, library, board);
    UsedAfterLocks(d, ctx, "");
    forall s | s in done.usedEx ensures s.0 != "" {
      AfterUsedEx(ctx, st, |d.connections|, s);
    }
  }

  /** An unnamed target chosen in the first run is chosen again in the second. */
  lemma ChosenAgain(ctx: Context, st: State, i: nat, again: State)
    requires i < |st.connections| && i < |again.connections|
    requires Choice(ctx, st, i).Bind? && Unbound(Choice(ctx, st, i).target)
    requires again.connections[i] == Rebound(st.connections[i], Choice(ctx, st, i))
    requires forall s | s in again.usedEx :: s.0 != ""
    ensures Decide(ctx, again.connections[i], again.used, again.usedEx).Bind?
  {
    var t := Choice(ctx, st, i).target;
    var c := st.connections[i];
    assert again.connections[i] == c.(target := t);
    if t.Gpio? {
      GpioChoice(ctx, st, i, t.pin);
    } else if t.ExpanderPin? {
      FirstFreeSlotIsFree(ctx.AllSlots(ctx.Expanders()), After(ctx, st, i).usedEx);
      EmptyExpanderHasRoom(ctx, again.usedEx, (t.expanderId, t.number.value));
      assert WantsSlot(ctx, again.connections[i]);
    }
  }

  lemma NotQuietWhenEmptyId(d: Design, library: Library, board: Board)
    requires BoardOf(d, library) == Some(board)
    requires BindsUnbound(ContextOf(d, library, board), Locked(d, ContextOf(d, library, board)))
    ensures
      var ctx := ContextOf(d, library, board);
      var again := Locked(d.(connections := Finished(d, ctx).connections), ctx);
      exists i :: 0 <= i < |d.connections| && Decide(ctx, again.connections[i], again.used, again.usedEx).Bind?
  {
    var ctx := ContextOf(d, library, board);
    var st := Locked(d, ctx);
    var again := Locked(d.(connections := Finished(d, ctx).connections), ctx);
    var i :| 0 <= i < |d.connections| && Choice(ctx, st, i).Bind? && Unbound(Choice(ctx, st, i).target);
    SecondStart(d, library, board);
    SolvedConnection(d, library, board, i);
    ChosenAgain(ctx, st, i, again);
    assert Decide(ctx, again.connections[i], again.used, again.usedEx).Bind?;
  }

  /** Solving a solved design assigns nothing exactly when no empty id was handed out, and
      then returns the design unchanged. */
  lemma SolveTwice(d: Design, library: Library)
    ensures Solve(Solve(d, library).design, library).assignments == [] <==> !HandsOutEmptyId(d, library)
    ensures !HandsOutEmptyId(d, library)
      ==> Solve(Solve(d, library).design, library).design == Solve(d, library).design
  {
    if BoardOf(d, library).Some? {
      var board := BoardOf(d, library).value;
      var ctx := ContextOf(d, library, board);
      var n := |d.connections|;
      var d2 := Solve(d, library).design;
      var again := Locked(d2, ctx);
      assert d2 == d.(connections := Finished(d, ctx).connections);
      EmptyIdIsBindsUnbound(d, library, board);
      SecondStart(d, library, board);
      if HandsOutEmptyId(d, library) {
        NotQuietWhenEmptyId(d, library, board);
        var i :| 0 <= i < n && Decide(ctx, again.connections[i], again.used, again.usedEx).Bind?;
        if |After(ctx, again, n).assignments| == 0 {
          NothingAssignedIsQuiet(ctx, again, n, i);
        }
      } else {
        QuietWhenNoEmptyId(d, library, board);
        QuietPass(ctx, again, n);
      }
    }
  }

  /** In particular solving is idempotent on every design whose parts and buses have names. */
  lemma SolveIdempotent(d: Design, library: Library)
    requires forall c | c in d.components :: c.id != ""
    requires forall b | b in d.buses :: b.id != ""
    ensures Solve(Solve(d, library).design, library).assignments == []
    ensures Solve(Solve(d, library).design, library).design == Solve(d, library).design
  {
    if BoardOf(d, library).Some? {
      var ctx := ContextOf(d, library, BoardOf(d, library).value);
      forall c | c in d.connections ensures !TakesEmptyName(ctx, c) {
        NamesAreTaken(ctx, c);
      }
      NamedExpandersAreDealt(ctx, d.connections);
    }
    SolveTwice(d, library);
  }

  lemma NamesAreTaken(ctx: Context, c: Connection)
    requires forall x | x in ctx.components :: x.id != ""
    requires forall b | b in ctx.buses :: b.id != ""
    ensures !TakesEmptyName(ctx, c)
  {
    if Reachable(ctx, c) && c.target.OnComponent? && LibPinOf(ctx, c).parentLibraryId.Some? {
      ParentIsComponent(ctx, ComponentIds(ctx.components), LibPinOf(ctx, c).parentLibraryId.value, c.componentId);
    }
  }

  lemma NamedExpandersAreDealt(ctx: Context, connections: seq<Connection>)
    requires forall x | x in ctx.components :: x.id != ""
    ensures !DealsEmptyExpander(ctx, connections)
  {
    var used := UsedExpanderPins(connections);
    var free := FreeOnEntry(ctx, used);
    FirstOfFreeSlots(ctx.AllSlots(ctx.Expanders()), used);
    forall k | 0 <= k < |free| ensures free[k].0 != "" {
      assert free[k] in free;
      AllSlotsInRange(ctx, ctx.Expanders(), free[k]);
      ExpandersAreExpanders(ctx, ComponentIds(ctx.components), free[k].0);
    }
  }

  lemma {:induction false} ParentIsComponent(ctx: Context, ids: seq<string>, wanted: string, self: string)
    ensures ctx.FirstParent(ids, wanted, self).Some? ==> ctx.FirstParent(ids, wanted, self).value in ids
  {
    if ids != [] {
      ParentIsComponent(ctx, ids[1..], wanted, self);
    }
  }

  const SDA := LibPin("SDA", "i2c_sda", false, false, false, false, None)

  const UNNAMED_BUS := Design(Some("b"), [Component("c", "part", [], None)], [Bus("", "i2c", map[])],
                              [Connection("c", "SDA", OnBus(""))])

  const UNNAMED_LIBRARY := Library(map["b" := Board("esp32", [], [], map[])],
                                   map["part" := LibComponent("part", "sensor", [SDA], None, None)])

  /** Such designs exist: the one bus has the empty id, so the pin it is given to still reads
      as unbound and every further run assigns it again. */
  lemma UnnamedBusIsHandedOut()
    ensures HandsOutEmptyId(UNNAMED_BUS, UNNAMED_LIBRARY)
    ensures Solve(Solve(UNNAMED_BUS, UNNAMED_LIBRARY).design, UNNAMED_LIBRARY).assignments != []
  {
    var d := UNNAMED_BUS;
    var ctx := ContextOf(d, UNNAMED_LIBRARY, BoardOf(d, UNNAMED_LIBRARY).value);
    var c := d.connections[0];
    assert FindComponent(d.components, "c") == Some(d.components[0]);
    assert FirstBus(d.buses, "i2c") == Some("");
    assert TakesEmptyName(ctx, c) && c in d.connections;
    SolveTwice(d, UNNAMED_LIBRARY);
    hide Solve;
  }
}
