/** Allocation safety: what the greedy pass hands out is handed out once, and conflicts that
    remain after solving were there before it or came from a lock. */
module SolverSafety {
  import opened Options
  import opened DesignModel
  import opened PinCandidates
  import opened PinSolver
  import opened SolverTrace

  // ------------------------------------------------------------- gpio picks

  /** Read off the input and the output alone: connection i was unbound, no lock names a pin
      for it, and the solved design has it on pin p. */
  predicate PickedPin(d: Design, library: Library, i: nat, p: string)
    requires i < |d.connections|
  {
    && BoardOf(d, library).Some?
    && LockedConnection(ContextOf(d, library, BoardOf(d, library).value), d.connections[i]).target == Gpio("")
    && p != ""
    && Solve(d, library).design.connections[i].target == Gpio(p)
  }

  /** What a gpio choice of the pass implies about the moment it was taken. */
  lemma GpioChoice(ctx: Context, st: State, i: nat, p: string)
    requires i < |st.connections| && Choice(ctx, st, i) == Bind(Gpio(p))
    ensures p != "" && st.connections[i].target == Gpio("") && Reachable(ctx, st.connections[i])
    ensures SolveGpio(ctx.board, LibPinOf(ctx, st.connections[i]), After(ctx, st, i).used) == Some(p)
    ensures p !in After(ctx, st, i).used && CanServe(ctx.board, LibPinOf(ctx, st.connections[i]), p)
  {
    var c := st.connections[i];
    assert c.target.Gpio?;
    PickIsLeastUnused(ctx.board, LibPinOf(ctx, c), After(ctx, st, i).used);
  }

  /** A pin the greedy pass picks can serve the role, was free of bus slots, bound
      connections and locks, and ends up on that one connection only. */
  lemma PickIsExclusive(d: Design, library: Library, i: nat, p: string)
    requires i < |d.connections| && PickedPin(d, library, i, p)
    ensures
      var ctx := ContextOf(d, library, BoardOf(d, library).value);
      && PinOf(library, d.components, d.connections[i]).Some?
      && CanServe(ctx.board, PinOf(library, d.components, d.connections[i]).value, p)
      && p !in BusPins(d.buses)
      && p !in ConnectionPins(d.connections)
      && (forall j :: 0 <= j < |d.connections| ==> !ReservedBy(ctx, d.connections[j], p))
    ensures forall j | 0 <= j < |d.connections| && j != i :: Solve(d, library).design.connections[j].target != Gpio(p)
  {
    var board := BoardOf(d, library).value;
    var ctx := ContextOf(d, library, board);
    var st := Locked(d, ctx);
    SolvedConnection(d, library, board, i);
    GpioChoice(ctx, st, i, p);
    AfterGrows(ctx, st, 0, i);
    UsedAfterLocks(d, ctx, p);
    forall j | 0 <= j < |d.connections| && j != i
      ensures Solve(d, library).design.connections[j].target != Gpio(p)
    {
      SolvedConnection(d, library, board, j);
      if Choice(ctx, st, j) == Bind(Gpio(p)) {
        ChosenOnce(ctx, st, i, j, p);
      }
    }
  }

  /** No pin is chosen at two connections. */
  lemma ChosenOnce(ctx: Context, st: State, i: nat, j: nat, p: string)
    requires i < |st.connections| && j < |st.connections|
    requires Choice(ctx, st, i) == Bind(Gpio(p)) && Choice(ctx, st, j) == Bind(Gpio(p))
    ensures i == j
  {
    if i != j {
      var second := if i < j then j else i;
      GpioChoice(ctx, st, second, p);
      AfterUsed(ctx, st, second, p);
    }
  }

  // --------------------------------------------------------- expander picks

  lemma {:induction false} SlotsInRange(ctx: Context, id: string, n: nat, s: Slot)
    requires n <= ctx.SizeOf(id)
    ensures s in ctx.SlotsFrom(id, n) <==> s.0 == id && n <= s.1 < ctx.SizeOf(id)
    decreases ctx.SizeOf(id) - n
  {
    if n < ctx.SizeOf(id) {
      SlotsInRange(ctx, id, n + 1, s);
    }
  }

  lemma {:induction false} AllSlotsInRange(ctx: Context, ids: seq<string>, s: Slot)
    ensures s in ctx.AllSlots(ids) <==> s.0 in ids && 0 <= s.1 < ctx.SizeOf(s.0)
  {
    if ids != [] {
      SlotsInRange(ctx, ids[0], 0, s);
      AllSlotsInRange(ctx, ids[1..], s);
    }
  }

  lemma {:induction false} ExpandersAreExpanders(ctx: Context, ids: seq<string>, id: string)
    ensures id in ctx.ExpandersFrom(ids) <==> id in ids && ctx.IsExpander(id)
  {
    if ids != [] {
      ExpandersAreExpanders(ctx, ids[1..], id);
    }
  }

  lemma {:induction false} FirstFreeSlotIsFree(slots: seq<Slot>, used: set<Slot>)
    ensures FirstFreeSlot(slots, used).Some?
      ==> FirstFreeSlot(slots, used).value in slots && FirstFreeSlot(slots, used).value !in used
    ensures FirstFreeSlot(slots, used).None? <==> forall s | s in slots :: s in used
  {
    if slots != [] {
      assert slots == [slots[0]] + slots[1..];
      FirstFreeSlotIsFree(slots[1..], used);
    }
  }

  predicate OnSlot(c: Connection, s: Slot)
  {
    c.target.ExpanderPin? && c.target.expanderId == s.0 && c.target.number == Some(s.1)
  }

  /** Connection i asked for any expander pin and the solved design has it on slot s. */
  predicate PickedSlot(d: Design, library: Library, i: nat, s: Slot)
    requires i < |d.connections|
  {
    && d.connections[i].target.ExpanderPin? && d.connections[i].target.expanderId == ""
    && s.0 != "" && OnSlot(Solve(d, library).design.connections[i], s)
  }

  /** What a slot choice of the pass implies about the moment it was taken. */
  lemma SlotChoiceIsFree(ctx: Context, st: State, i: nat, s: Slot)
    requires i < |st.connections| && TakesSlot(Choice(ctx, st, i), s)
    ensures WantsSlot(ctx, st.connections[i])
    ensures Choice(ctx, st, i).target == st.connections[i].target.(expanderId := s.0, number := Some(s.1))
    ensures s !in After(ctx, st, i).usedEx && ctx.IsExpander(s.0) && 0 <= s.1 < ctx.SizeOf(s.0)
  {
    var slots := ctx.AllSlots(ctx.Expanders());
    assert st.connections[i].target.ExpanderPin?;
    FirstFreeSlotIsFree(slots, After(ctx, st, i).usedEx);
    AllSlotsInRange(ctx, ctx.Expanders(), s);
    ExpandersAreExpanders(ctx, ComponentIds(ctx.components), s.0);
  }

  /** Connection c asks the pass for an expander slot. */
  predicate WantsSlot(ctx: Context, c: Connection)
  {
    c.target.ExpanderPin? && Reachable(ctx, c)
  }

  lemma SlotChosenOnce(ctx: Context, st: State, i: nat, j: nat, s: Slot)
    requires i < |st.connections| && j < |st.connections|
    requires TakesSlot(Choice(ctx, st, i), s) && TakesSlot(Choice(ctx, st, j), s)
    ensures i == j
  {
    if i != j {
      var second := if i < j then j else i;
      AfterUsedEx(ctx, st, second, s);
      SlotChoiceIsFree(ctx, st, second, s);
    }
  }

  /** An expander slot the pass picks lies on a real expander, below its size, and ends up on
      that one connection only, with the target's mode and inversion kept. */
  lemma SlotPickIsExclusive(d: Design, library: Library, i: nat, s: Slot)
    requires i < |d.connections| && PickedSlot(d, library, i, s)
    ensures BoardOf(d, library).Some?
    ensures
      var ctx := ContextOf(d, library, BoardOf(d, library).value);
      && ctx.IsExpander(s.0) && 0 <= s.1 < ctx.SizeOf(s.0)
      && Solve(d, library).design.connections[i].target
           == d.connections[i].target.(expanderId := s.0, number := Some(s.1))
    ensures forall j | 0 <= j < |d.connections| && j != i :: !OnSlot(Solve(d, library).design.connections[j], s)
  {
    var board := BoardOf(d, library).value;
    var ctx := ContextOf(d, library, board);
    var st := Locked(d, ctx);
    SolvedConnection(d, library, board, i);
    assert TakesSlot(Choice(ctx, st, i), s);
    SlotChoiceIsFree(ctx, st, i, s);
    forall j | 0 <= j < |d.connections| && j != i
      ensures !OnSlot(Solve(d, library).design.connections[j], s)
    {
      OthersOffSlot(d, library, board, i, j, s);
    }
  }

  lemma OthersOffSlot(d: Design, library: Library, board: Board, i: nat, j: nat, s: Slot)
    requires BoardOf(d, library) == Some(board) && i < |d.connections| && j < |d.connections| && j != i
    requires TakesSlot(Choice(ContextOf(d, library, board), Locked(d, ContextOf(d, library, board)), i), s)
    requires s.0 != ""
    ensures !OnSlot(Solve(d, library).design.connections[j], s)
  {
    var ctx := ContextOf(d, library, board);
    var st := Locked(d, ctx);
    SlotChoiceIsFree(ctx, st, i, s);
    AfterGrows(ctx, st, 0, i);
    UsedAfterLocks(d, ctx, "");
    SolvedConnection(d, library, board, j);
    if TakesSlot(Choice(ctx, st, j), s) {
      SlotChosenOnce(ctx, st, i, j, s);
    } else {
      assert d.connections[j] in d.connections;
    }
  }

  // ---------------------------------------------------- conflicts that remain

  /** Users of a pin so far: the `pin_users` table, one pin's row of it. */
  function Users(connections: seq<Connection>, n: nat, p: string): seq<nat>
    requires n <= |connections|
  {
    if n == 0 then []
    else if connections[n - 1].target == Gpio(p) then Users(connections, n - 1, p) + [n - 1]
    else Users(connections, n - 1, p)
  }

  lemma {:induction false} UsersExactly(connections: seq<Connection>, n: nat, p: string)
    requires n <= |connections|
    ensures forall i :: i in Users(connections, n, p) <==> 0 <= i < n && connections[i].target == Gpio(p)
    ensures |Users(connections, n, p)| > 1 ==> Users(connections, n, p)[0] != Users(connections, n, p)[1]
  {
    if n > 0 {
      UsersExactly(connections, n - 1, p);
    }
  }

  datatype GpioConflict = GpioConflict(pin: string, users: seq<nat>)

  /** The gpio half of `_static_warnings`: a dict of users per pin, then its long rows. */
  method GpioConflicts(connections: seq<Connection>) returns (out: seq<GpioConflict>)
    ensures forall w :: w in out <==>
      w.pin != "" && w.users == Users(connections, |connections|, w.pin) && |w.users| > 1
  {
    var order: seq<string> := [];
    var pinUsers: map<string, seq<nat>> := map[];
    for i := 0 to |connections|
      invariant forall p :: p in order <==> p in pinUsers
      invariant forall p | p in pinUsers :: p != "" && pinUsers[p] == Users(connections, i, p)
      invariant forall p | p != "" && p !in pinUsers :: Users(connections, i, p) == []
    {
      var t := connections[i].target;
      if t.Gpio? && t.pin != "" {
        if t.pin !in pinUsers {
          order := order + [t.pin];
          pinUsers := pinUsers[t.pin := []];
        }
        pinUsers := pinUsers[t.pin := pinUsers[t.pin] + [i]];
      }
    }
    out := [];
    for k := 0 to |order|
      invariant forall w :: w in out <==>
        w.pin in order[..k] && w.users == pinUsers[w.pin] && |w.users| > 1
    {
      assert order[..k + 1] == order[..k] + [order[k]];
      if |pinUsers[order[k]]| > 1 {
        out := out + [GpioConflict(order[k], pinUsers[order[k]])];
      }
    }
    assert order[..|order|] == order;
  }

  /** Every user of a pin reported as conflicting was bound on entry or by a lock. */
  lemma ConflictsAreNotGreedy(d: Design, library: Library, p: string, i: nat)
    requires i < |d.connections| && p != ""
    requires i in Users(Solve(d, library).design.connections, |d.connections|, p)
    requires |Users(Solve(d, library).design.connections, |d.connections|, p)| > 1
    ensures d.connections[i].target == Gpio(p) || BoundByLock(d, library, i, p)
  {
    var out := Solve(d, library).design.connections;
    var users := Users(out, |out|, p);
    UsersExactly(out, |out|, p);
    var other := if users[0] == i then users[1] else users[0];
    assert other in users;
    if BoardOf(d, library).Some? {
      if PickedPin(d, library, i, p) {
        PickIsExclusive(d, library, i, p);
      }
      NotPickedIsOld(d, library, BoardOf(d, library).value, i, p);
    }
  }

  lemma NotPickedIsOld(d: Design, library: Library, board: Board, i: nat, p: string)
    requires BoardOf(d, library) == Some(board) && i < |d.connections| && p != ""
    requires Solve(d, library).design.connections[i].target == Gpio(p) && !PickedPin(d, library, i, p)
    ensures d.connections[i].target == Gpio(p) || BoundByLock(d, library, i, p)
  {
    SolvedConnection(d, library, board, i);
  }

  predicate BoundByLock(d: Design, library: Library, i: nat, p: string)
    requires i < |d.connections|
  {
    && BoardOf(d, library).Some?
    && d.connections[i].target == Gpio("")
    && LockFor(ContextOf(d, library, BoardOf(d, library).value), d.connections[i]) == Some(p)
  }
}
