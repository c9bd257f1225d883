/** The greedy pin solver (wirestudio/csp/pin_solver.py): locks first, then one pass over the
    connections. `Solve` says what it computes as a function of the design; `Solver` is the
    algorithm itself, which edits its connections and used sets in place. */
module PinSolver {
  import opened Options
  import opened DesignModel
  import opened Text
  import opened PinCandidates

  datatype Assignment = Assignment(componentId: string, role: string, oldTarget: Target, newTarget: Target)

  datatype Warning = Warning(code: string, componentId: string, role: string)

  datatype SolveResult = SolveResult(
    design: Design,
    assignments: seq<Assignment>,
    unresolved: seq<Warning>,
    error: Option<string>)

  // --------------------------------------------------------- reading helpers

  predicate Unbound(t: Target)
  {
    match t
    case Gpio(pin) => pin == ""
    case OnBus(busId) => busId == ""
    case ExpanderPin(expanderId, _, _, _) => expanderId == ""
    case OnComponent(componentId) => componentId == ""
    case Rail(_) => false
    case Net(_, _) => false
  }

  const BUS_PIN_SLOTS := {"sda", "scl", "miso", "mosi", "clk", "cs", "rx", "tx", "lrclk", "bclk", "pin"}

  function BusPins(buses: seq<Bus>): set<string>
  {
    set b, slot | b in buses && slot in BUS_PIN_SLOTS && slot in b.fields && b.fields[slot] != ""
      :: b.fields[slot]
  }

  function ConnectionPins(connections: seq<Connection>): set<string>
  {
    set c | c in connections && c.target.Gpio? && c.target.pin != "" :: c.target.pin
  }

  function UsedGpioPins(d: Design): set<string>
  {
    ConnectionPins(d.connections) + BusPins(d.buses)
  }

  type Slot = (string, int)

  function UsedExpanderPins(connections: seq<Connection>): set<Slot>
  {
    set c | c in connections && c.target.ExpanderPin? && c.target.expanderId != "" && c.target.number.Some?
      :: (c.target.expanderId, c.target.number.value)
  }

  function BusTypeForPin(kind: string): Option<string>
  {
    if kind in {"i2c_sda", "i2c_scl"} then Some("i2c")
    else if kind in {"spi_clk", "spi_miso", "spi_mosi"} then Some("spi")
    else if kind in {"i2s_lrclk", "i2s_bclk"} then Some("i2s")
    else if kind in {"uart_rx", "uart_tx"} then Some("uart")
    else if kind == "onewire_data" then Some("1wire")
    else None
  }

  /** `buses_by_type[kind][0]`, when there is one. */
  function FirstBus(buses: seq<Bus>, kind: string): (r: Option<string>)
    ensures r.Some? ==> exists b :: b in buses && b.kind == kind && b.id == r.value
    ensures r.None? ==> forall b | b in buses :: b.kind != kind
  {
    if buses == [] then None
    else if buses[0].kind == kind then Some(buses[0].id)
    else FirstBus(buses[1..], kind)
  }

  function ExpanderSize(entryId: string): nat
  {
    if Contains(entryId, "23017") then 16 else 8
  }

  // ------------------------------------------------------------- the context

  /** What the pass reads and never writes. */
  datatype Context = Context(board: Board, library: Library, components: seq<Component>, buses: seq<Bus>)
  {
    function Entry(id: string): Option<LibComponent>
    {
      LibraryEntry(library, components, id)
    }

    predicate IsExpander(id: string)
    {
      Entry(id).Some? && Entry(id).value.category == "io_expander"
    }

    /** Component ids in dict order, expanders only, from index i on. */
    function ExpandersFrom(ids: seq<string>): seq<string>
    {
      if ids == [] then []
      else if IsExpander(ids[0]) then [ids[0]] + ExpandersFrom(ids[1..])
      else ExpandersFrom(ids[1..])
    }

    function Expanders(): seq<string>
    {
      ExpandersFrom(ComponentIds(components))
    }

    function SizeOf(id: string): nat
    {
      if Entry(id).Some? then ExpanderSize(Entry(id).value.id) else 8
    }

    /** Slots (id, n), (id, n+1), ... up to the expander's size. */
    function SlotsFrom(id: string, n: nat): seq<Slot>
      requires n <= SizeOf(id)
      decreases SizeOf(id) - n
    {
      if n == SizeOf(id) then [] else [(id, n)] + SlotsFrom(id, n + 1)
    }

    function AllSlots(ids: seq<string>): seq<Slot>
    {
      if ids == [] then [] else SlotsFrom(ids[0], 0) + AllSlots(ids[1..])
    }

    /** The first component, in dict order, that is an instance of `wanted` and not `self`. */
    function FirstParent(ids: seq<string>, wanted: string, self: string): Option<string>
    {
      if ids == [] then None
      else
        var c := FindComponent(components, ids[0]);
        if c.Some? && c.value.libraryId == wanted && ids[0] != self then Some(ids[0])
        else FirstParent(ids[1..], wanted, self)
    }
  }

  function FirstFreeSlot(slots: seq<Slot>, used: set<Slot>): Option<Slot>
  {
    if slots == [] then None
    else if slots[0] !in used then Some(slots[0])
    else FirstFreeSlot(slots[1..], used)
  }

  // --------------------------------------------------------------- decisions

  datatype Outcome = Leave | Report(code: string) | Bind(target: Target)

  function ComponentWithPin(ctx: Context, c: Connection): (r: Outcome)
  {
    if FindComponent(ctx.components, c.componentId).None? then Report("unknown_component")
    else if ctx.Entry(c.componentId).None? then Report("unknown_library_component")
    else if FindRole(ctx.Entry(c.componentId).value.pins, c.role).None? then Report("unknown_pin_role")
    else Leave
  }

  /** The connection is unbound and its component, library entry and role all resolve. */
  predicate Reachable(ctx: Context, c: Connection)
  {
    Unbound(c.target) && ComponentWithPin(ctx, c).Leave?
  }

  function LibPinOf(ctx: Context, c: Connection): LibPin
    requires ComponentWithPin(ctx, c).Leave?
  {
    FindRole(ctx.Entry(c.componentId).value.pins, c.role).value
  }

  function DecideGpio(ctx: Context, pin: LibPin, used: set<string>): Outcome
  {
    match SolveGpio(ctx.board, pin, used)
    case None => Report("no_gpio_candidate")
    case Some(choice) => if choice == "" then Report("no_gpio_candidate") else Bind(Gpio(choice))
  }

  function DecideBus(ctx: Context, pin: LibPin): Outcome
  {
    match BusTypeForPin(pin.kind)
    case None => Report("bus_pin_no_type")
    case Some(wanted) =>
      match FirstBus(ctx.buses, wanted)
      case None => Report("no_matching_bus")
      case Some(id) => Bind(OnBus(id))
  }

  function DecideExpander(ctx: Context, t: Target, usedEx: set<Slot>): Outcome
    requires t.ExpanderPin?
  {
    if ctx.Expanders() == [] then Report("no_expander")
    else
      match FirstFreeSlot(ctx.AllSlots(ctx.Expanders()), usedEx)
      case None => Report("no_expander_pin")
      case Some(slot) => Bind(t.(expanderId := slot.0, number := Some(slot.1)))
  }

  function DecideParent(ctx: Context, pin: LibPin, self: string): Outcome
  {
    if pin.parentLibraryId.None? || pin.parentLibraryId.value == "" then Report("no_parent_component")
    else
      match ctx.FirstParent(ComponentIds(ctx.components), pin.parentLibraryId.value, self)
      case None => Report("no_parent_component")
      case Some(id) => Bind(OnComponent(id))
  }

  /** What the pass does with one connection, given what is used so far. */
  function Decide(ctx: Context, c: Connection, used: set<string>, usedEx: set<Slot>): Outcome
  {
    if !Unbound(c.target) then Leave
    else if !ComponentWithPin(ctx, c).Leave? then ComponentWithPin(ctx, c)
    else
      match c.target
      case Gpio(_) => DecideGpio(ctx, LibPinOf(ctx, c), used)
      case OnBus(_) => DecideBus(ctx, LibPinOf(ctx, c))
      case ExpanderPin(_, _, _, _) => DecideExpander(ctx, c.target, usedEx)
      case OnComponent(_) => DecideParent(ctx, LibPinOf(ctx, c), c.componentId)
      case Rail(_) => Leave
      case Net(_, _) => Leave
  }

  // ---------------------------------------------------------------- the state

  datatype State = State(
    connections: seq<Connection>,
    used: set<string>,
    usedEx: set<Slot>,
    assignments: seq<Assignment>,
    unresolved: seq<Warning>)

  function SetTarget(st: State, i: nat, t: Target): State
    requires i < |st.connections|
  {
    var c := st.connections[i];
    st.(connections := st.connections[i := c.(target := t)],
        used := if t.Gpio? then st.used + {t.pin} else st.used,
        usedEx := if t.ExpanderPin? && t.number.Some? then st.usedEx + {(t.expanderId, t.number.value)} else st.usedEx,
        assignments := st.assignments + [Assignment(c.componentId, c.role, c.target, t)])
  }

  function Warned(st: State, i: nat, code: string): State
    requires i < |st.connections|
  {
    var c := st.connections[i];
    st.(unresolved := st.unresolved + [Warning(code, c.componentId, c.role)])
  }

  function Step(ctx: Context, st: State, i: nat): State
    requires i < |st.connections|
  {
    match Decide(ctx, st.connections[i], st.used, st.usedEx)
    case Leave => st
    case Report(code) => Warned(st, i, code)
    case Bind(t) => SetTarget(st, i, t)
  }

  /** The state after the pass has visited the first n connections. */
  function After(ctx: Context, st: State, n: nat): (r: State)
    requires n <= |st.connections|
    ensures |r.connections| == |st.connections|
  {
    if n == 0 then st else Step(ctx, After(ctx, st, n - 1), n - 1)
  }

  // ------------------------------------------------------------------- locks

  /** The pin the connection's component locks this role to, if any. */
  function LockFor(ctx: Context, c: Connection): Option<string>
  {
    match FindComponent(ctx.components, c.componentId)
    case None => None
    case Some(comp) => FindLock(comp.locks, c.role)
  }

  function Reserve(st: State, pin: string): State
  {
    st.(used := st.used + {pin})
  }

  function LockStep(ctx: Context, st: State, i: nat): State
    requires i < |st.connections|
  {
    var c := st.connections[i];
    match LockFor(ctx, c)
    case None => st
    case Some(pin) =>
      if !c.target.Gpio? then Warned(st, i, "locked_pin_wrong_kind")
      else if c.target.pin == pin then Reserve(st, pin)
      else if c.target.pin != "" then Reserve(Warned(st, i, "locked_pin_mismatch"), pin)
      else SetTarget(st, i, Gpio(pin))
  }

  function LocksAfter(ctx: Context, st: State, n: nat): (r: State)
    requires n <= |st.connections|
    ensures |r.connections| == |st.connections|
  {
    if n == 0 then st else LockStep(ctx, LocksAfter(ctx, st, n - 1), n - 1)
  }

  /** Lock entries for roles the library entry does not declare, component by component. */
  function UnknownLocks(id: string, pins: seq<LibPin>, locks: seq<Lock>, n: nat): seq<Warning>
    requires n <= |locks|
  {
    if n == 0 then []
    else
      var sofar := UnknownLocks(id, pins, locks, n - 1);
      if FindRole(pins, locks[n - 1].role).None?
      then sofar + [Warning("locked_pin_unknown_role", id, locks[n - 1].role)] else sofar
  }

  function UnknownLocksOf(ctx: Context, id: string): seq<Warning>
  {
    match FindComponent(ctx.components, id)
    case None => []
    case Some(comp) =>
      match ctx.Entry(id)
      case None => []
      case Some(entry) => UnknownLocks(id, entry.pins, comp.locks, |comp.locks|)
  }

  function AllUnknownLocks(ctx: Context, ids: seq<string>, n: nat): seq<Warning>
    requires n <= |ids|
  {
    if n == 0 then [] else AllUnknownLocks(ctx, ids, n - 1) + UnknownLocksOf(ctx, ids[n - 1])
  }

  // ----------------------------------------------------------------- solving

  function BoardOf(d: Design, library: Library): Option<Board>
  {
    if d.board.Some? && d.board.value != "" && d.board.value in library.boards
    then Some(library.boards[d.board.value]) else None
  }

  function ContextOf(d: Design, library: Library, board: Board): Context
  {
    Context(board, library, d.components, d.buses)
  }

  function Start(d: Design, ctx: Context): State
  {
    var ids := ComponentIds(d.components);
    State(d.connections, UsedGpioPins(d), UsedExpanderPins(d.connections), [], AllUnknownLocks(ctx, ids, |ids|))
  }

  function Locked(d: Design, ctx: Context): (r: State)
    ensures |r.connections| == |d.connections|
  {
    LocksAfter(ctx, Start(d, ctx), |d.connections|)
  }

  function Finished(d: Design, ctx: Context): (r: State)
    ensures |r.connections| == |d.connections|
  {
    After(ctx, Locked(d, ctx), |d.connections|)
  }

  function Solve(d: Design, library: Library): SolveResult
  {
    match BoardOf(d, library)
    case None =>
      var missing := d.board.None? || d.board.value == "";
      SolveResult(d, [], [], Some(if missing then "no_board" else "unknown_board"))
    case Some(board) =>
      var st := Finished(d, ContextOf(d, library, board));
      SolveResult(d.(connections := st.connections), st.assignments, st.unresolved, None)
  }

  // --------------------------------------------------------------- algorithm

  /** One run of the solver over its own copy of the connections. */
  class Solver {
    const ctx: Context
    var connections: seq<Connection>
    var usedGpios: set<string>
    var usedExpanderPins: set<Slot>
    var assignments: seq<Assignment>
    var unresolved: seq<Warning>

    ghost function Now(): State
      reads this
    {
      State(connections, usedGpios, usedExpanderPins, assignments, unresolved)
    }

    constructor (d: Design, ctx: Context)
      ensures this.ctx == ctx
      ensures Now() == State(d.connections, UsedGpioPins(d), UsedExpanderPins(d.connections), [], [])
    {
      this.ctx := ctx;
      connections := d.connections;
      usedGpios := UsedGpioPins(d);
      usedExpanderPins := UsedExpanderPins(d.connections);
      assignments := [];
      unresolved := [];
    }

    method Warn(i: nat, code: string)
      requires i < |connections|
      modifies this
      ensures Now() == Warned(old(Now()), i, code)
    {
      unresolved := unresolved + [Warning(code, connections[i].componentId, connections[i].role)];
    }

    /** `conn["target"] = new` with the bookkeeping that follows it. */
    method Assign(i: nat, t: Target)
      requires i < |connections|
      modifies this
      ensures Now() == SetTarget(old(Now()), i, t)
    {
      var c := connections[i];
      connections := connections[i := c.(target := t)];
      if t.Gpio? {
        usedGpios := usedGpios + {t.pin};
      } else if t.ExpanderPin? && t.number.Some? {
        usedExpanderPins := usedExpanderPins + {(t.expanderId, t.number.value)};
      }
      assignments := assignments + [Assignment(c.componentId, c.role, c.target, t)];
    }

    method ApplyLockedPins()
      modifies this
      ensures Now() == LocksAfter(ctx, old(Now()), |old(connections)|)
    {
      for i := 0 to |connections|
        invariant |connections| == |old(connections)|
        invariant Now() == LocksAfter(ctx, old(Now()), i)
      {
        var c := connections[i];
        var lock := LockFor(ctx, c);
        if lock.Some? {
          if !c.target.Gpio? {
            Warn(i, "locked_pin_wrong_kind");
          } else if c.target.pin == lock.value {
            usedGpios := usedGpios + {lock.value};
          } else if c.target.pin != "" {
            Warn(i, "locked_pin_mismatch");
            usedGpios := usedGpios + {lock.value};
          } else {
            Assign(i, Gpio(lock.value));
          }
        }
      }
    }

    /** The nested loops of `_solve_expander_pin`. */
    method PickExpanderSlot() returns (r: Option<Slot>)
      ensures r == FirstFreeSlot(ctx.AllSlots(ctx.Expanders()), usedExpanderPins)
    {
      var ids := ctx.Expanders();
      for i := 0 to |ids|
        invariant FirstFreeSlot(ctx.AllSlots(ids), usedExpanderPins)
               == FirstFreeSlot(ctx.AllSlots(ids[i..]), usedExpanderPins)
      {
        var size := ctx.SizeOf(ids[i]);
        ghost var rest := ctx.AllSlots(ids[i + 1..]);
        for n := 0 to size
          invariant FirstFreeSlot(ctx.AllSlots(ids), usedExpanderPins)
                 == FirstFreeSlot(ctx.SlotsFrom(ids[i], n) + rest, usedExpanderPins)
        {
          if (ids[i], n) !in usedExpanderPins {
            return Some((ids[i], n));
          }
          assert (ctx.SlotsFrom(ids[i], n) + rest)[1..] == ctx.SlotsFrom(ids[i], n + 1) + rest;
        }
        assert ctx.SlotsFrom(ids[i], size) + rest == rest;
      }
      return None;
    }

    method BindOne(i: nat)
      requires i < |connections|
      modifies this
      ensures Now() == Step(ctx, old(Now()), i)
    {
      var c := connections[i];
      if !Unbound(c.target) {
        return;
      }
      var fault := ComponentWithPin(ctx, c);
      if !fault.Leave? {
        Warn(i, fault.code);
        return;
      }
      var outcome: Outcome;
      match c.target {
      case Gpio(_) =>
        var choice := PickGpio(ctx.board, LibPinOf(ctx, c), usedGpios);
        outcome := if choice.None? || choice.value == "" then Report("no_gpio_candidate")
                   else Bind(Gpio(choice.value));
      case ExpanderPin(_, _, _, _) =>
        if ctx.Expanders() == [] {
          outcome := Report("no_expander");
        } else {
          var slot := PickExpanderSlot();
          outcome := if slot.None? then Report("no_expander_pin")
                     else Bind(c.target.(expanderId := slot.value.0, number := Some(slot.value.1)));
        }
      case OnBus(_) =>
        outcome := DecideBus(ctx, LibPinOf(ctx, c));
      case OnComponent(_) =>
        outcome := DecideParent(ctx, LibPinOf(ctx, c), c.componentId);
      }
      assert outcome == Decide(ctx, c, usedGpios, usedExpanderPins);
      match outcome
      case Leave =>
      case Report(code) => Warn(i, code);
      case Bind(t) => Assign(i, t);
    }

    method BindConnections()
      modifies this
      ensures Now() == After(ctx, old(Now()), |old(connections)|)
    {
      for i := 0 to |connections|
        invariant |connections| == |old(connections)|
        invariant Now() == After(ctx, old(Now()), i)
      {
        BindOne(i);
      }
    }
  }

  method UnknownLockWarningsOf(ctx: Context, id: string) returns (warnings: seq<Warning>)
    ensures warnings == UnknownLocksOf(ctx, id)
  {
    warnings := [];
    var comp := FindComponent(ctx.components, id);
    var entry := ctx.Entry(id);
    if comp.None? || entry.None? {
      return;
    }
    var locks, pins := comp.value.locks, entry.value.pins;
    for k := 0 to |locks|
      invariant warnings == UnknownLocks(id, pins, locks, k)
    {
      if FindRole(pins, locks[k].role).None? {
        warnings := warnings + [Warning("locked_pin_unknown_role", id, locks[k].role)];
      }
    }
  }

  /** The first pass of `_apply_locked_pins`. */
  method UnknownLockWarnings(ctx: Context) returns (warnings: seq<Warning>)
    ensures warnings == AllUnknownLocks(ctx, ComponentIds(ctx.components), |ComponentIds(ctx.components)|)
  {
    var ids := ComponentIds(ctx.components);
    warnings := [];
    for i := 0 to |ids|
      invariant warnings == AllUnknownLocks(ctx, ids, i)
    {
      var more := UnknownLockWarningsOf(ctx, ids[i]);
      warnings := warnings + more;
    }
  }

  /** `solve_pins`: works on its own copy, so the design passed in is what it was. */
  method SolvePins(d: Design, library: Library) returns (r: SolveResult)
    ensures r == Solve(d, library)
  {
    if d.board.None? || d.board.value == "" {
      return SolveResult(d, [], [], Some("no_board"));
    }
    if d.board.value !in library.boards {
      return SolveResult(d, [], [], Some("unknown_board"));
    }
    var ctx := ContextOf(d, library, library.boards[d.board.value]);
    var solver := new Solver(d, ctx);
    solver.unresolved := UnknownLockWarnings(ctx);
    solver.ApplyLockedPins();
    solver.BindConnections();
    return SolveResult(d.(connections := solver.connections), solver.assignments, solver.unresolved, None);
  }
}
