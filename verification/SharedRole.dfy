/** A part whose role names two pins, and what adding it does (wirestudio/agent/tools.py:662-667). */
module SharedRole {
  import opened Options
  import opened DesignModel
  import opened PinCandidates
  import opened PinSolver
  import opened SolverTrace
  import opened DesignEdits
  import opened DesignInvariant
  import opened AddedPart

  const SUPPLY := LibPin("S", "ground", false, false, false, false, None)
  const SIGNAL := LibPin("S", "digital_in", false, false, false, false, None)
  const ONE_PIN: GpioTable := [BoardPin("D1", {"gpio"})]
  const BARE := Design(Some("b"), [], [], [])

  function TwiceLibrary(): Library
  {
    Library(map["b" := Board("esp32", ONE_PIN, [], map[])],
            map["part" := LibComponent("part", "sensor", [SUPPLY, SIGNAL], None, None)])
  }

  function TwiceEnv(order: set<string> -> seq<string>): Env
  {
    Env(TwiceLibrary(), order, (d, id) => false)
  }

  lemma TwiceReady(order: set<string> -> seq<string>)
    requires Enumerates(order)
    ensures Ready(TwiceEnv(order), BARE, "part")
  {
    assert MissingTypes(BARE.buses) == BusTypes();
    assert |BusTypes()| == 5;
    RoomMeansFresh(TwiceEnv(order), BARE, "part");
  }

  lemma HeadIsIn(s: seq<string>)
    ensures s == [] || s[0] in s
  {
  }

  lemma TwiceAppended(order: set<string> -> seq<string>)
    requires Enumerates(order)
    ensures
      var a := Appended(TwiceEnv(order), BARE, "part", "");
      && a.design.buses == [] && a.design.board == Some("b")
      && a.design.components == [Component(a.id, "part", [], None)]
      && |a.design.connections| == 2 && a.design.connections[0].target.Rail?
      && a.design.connections[1] == Connection(a.id, "S", Gpio(""))
  {
    var env := TwiceEnv(order);
    var entry := env.library.components["part"];
    assert NeededBusTypes(entry.pins) == {};
    HeadIsIn(order({}));
    assert order({}) == [];
    assert NeededBusTypes(entry.pins) - BusKinds(BARE.buses) == {};
    assert PrepareBuses(env, [], entry, env.library.boards["b"]) == [];
    var a := Appended(env, BARE, "part", "");
    var rails := env.library.boards["b"].rails;
    assert entry.pins[0] == SUPPLY && entry.pins[1] == SIGNAL;
    assert Seeds(a.id, entry.pins, 1, rails, [], entry)
       == [Connection(a.id, "S", DefaultTarget(SUPPLY, rails, [], entry))];
    assert a.design.connections == BARE.connections + Seeds(a.id, entry.pins, 2, rails, [], entry);
  }

  lemma TwiceSeeded(order: set<string> -> seq<string>)
    requires Enumerates(order)
    ensures
      Seeded(TwiceEnv(order), BARE, "part", "") == Appended(TwiceEnv(order), BARE, "part", "")
  {
    TwiceAppended(order);
    hide Appended;
    var a := Appended(TwiceEnv(order), BARE, "part", "");
    assert AddWithConnections(TwiceEnv(order), BARE, "part", "") == a;
    assert EmptyBuses(BusIdSet(BARE.buses), a.design.buses) == {};
    assert KeepBuses(a.design.buses, {}) == a.design.buses;
    assert WithoutBuses(a.design, {}).connections == a.design.connections;
  }

  /** The second pin is given the board's one pin. */
  lemma TwiceSolved(order: set<string> -> seq<string>)
    requires Enumerates(order)
    ensures
      var solved := Solve(Seeded(TwiceEnv(order), BARE, "part", "").design, TwiceLibrary()).design.connections;
      |solved| == 2 && solved[1].target == Gpio("D1")
  {
    TwiceSeeded(order);
    TwiceAppended(order);
    var a := Seeded(TwiceEnv(order), BARE, "part", "");
    hide Seeded, Appended;
    LonelyPinIsPicked(a.design, a.id);
  }

  lemma LonelyPinIsPicked(d: Design, id: string)
    requires d.board == Some("b") && d.components == [Component(id, "part", [], None)] && d.buses == []
    requires |d.connections| == 2 && d.connections[0].target.Rail? && d.connections[1] == Connection(id, "S", Gpio(""))
    ensures |Solve(d, TwiceLibrary()).design.connections| == 2
    ensures Solve(d, TwiceLibrary()).design.connections[1].target == Gpio("D1")
  {
    var library := TwiceLibrary();
    var board := library.boards["b"];
    var ctx := ContextOf(d, library, board);
    hide Solve, Locked, Choice;
    SolveFrame(d, library);
    SolvedConnection(d, library, board, 0);
    SolvedConnection(d, library, board, 1);
    assert FindComponent(d.components, id) == Some(d.components[0]);
    assert LockFor(ctx, d.connections[1]) == None;
    NothingUsed(d, ctx);
    LonelyChoice(ctx, Locked(d, ctx), id);
  }

  lemma LonelyChoice(ctx: Context, st: State, id: string)
    requires ctx.components == [Component(id, "part", [], None)] && ctx.library == TwiceLibrary()
    requires ctx.board == TwiceLibrary().boards["b"] && st.used == {} && |st.connections| == 2
    requires st.connections[0].target.Rail? && st.connections[1] == Connection(id, "S", Gpio(""))
    ensures Choice(ctx, st, 1) == Bind(Gpio("D1"))
  {
    assert FindComponent(ctx.components, id) == Some(ctx.components[0]);
    assert FindRole([SUPPLY, SIGNAL], "S") == Some(SUPPLY);
    OnlyPick(ctx.board);
    hide SolveGpio, CanServe;
    assert After(ctx, st, 1) == Step(ctx, st, 0) == st;
    assert After(ctx, st, 1).used == {};
  }

  lemma NothingUsed(d: Design, ctx: Context)
    requires d.buses == [] && |d.connections| == 2
    requires d.connections[0].target.Rail? && d.connections[1].target == Gpio("")
    requires LockFor(ctx, d.connections[1]) == None
    ensures Locked(d, ctx).used == {}
  {
    assert BusPins(d.buses) == {} && ConnectionPins(d.connections) == {};
    forall p ensures p !in Locked(d, ctx).used {
      UsedAfterLocks(d, ctx, p);
    }
  }

  lemma OnlyPick(board: Board)
    requires board.gpio == ONE_PIN
    ensures SolveGpio(board, SUPPLY, {}) == Some("D1")
  {
    assert board.gpio[0] == BoardPin("D1", {"gpio"});
    PickIsLeastUnused(board, SUPPLY, {});
    assert CanServe(board, SUPPLY, "D1");
  }

  /** Such parts exist: a ground pin and a signal pin of one role both end up on the signal's
      board pin. */
  lemma SharedRoleCollides(order: set<string> -> seq<string>)
    requires Enumerates(order)
    ensures Ready(TwiceEnv(order), BARE, "part")
    ensures
      var r := AddKnown(TwiceEnv(order), BARE, "part", "").design.connections;
      |r| == 2 && r[0].target == r[1].target == Gpio("D1")
  {
    TwiceReady(order);
    TwiceSolved(order);
    NewTargetsAreSolved(TwiceEnv(order), BARE, "part", "");
    var pins := TwiceLibrary().components["part"].pins;
    assert LastOfRole(pins, 0) == 1 && LastOfRole(pins, 1) == 1;
    hide Ready, AddKnown, Seeded, Solve, LastOfRole;
    assert NewTarget(TwiceEnv(order), BARE, "part", "", 0) == Gpio("D1");
    assert NewTarget(TwiceEnv(order), BARE, "part", "", 1) == Gpio("D1");
  }
}
