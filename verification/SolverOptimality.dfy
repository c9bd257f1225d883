/** How good greedy is. The solver never backtracks (its docstring says it does), so it can
    miss the best plan; on a board whose pins have names it never binds fewer than half of
    what any plan binds. */
module SolverOptimality {
  import opened Options
  import opened Text
  import opened DesignModel
  import opened PinCandidates
  import opened PinSolver
  import opened SolverTrace
  import opened SolverSafety

  /** An injective map is no larger than any set holding its values. */
  lemma {:induction false} InjectionSize<A, B>(m: map<A, B>, target: set<B>)
    requires forall a, b | a in m && b in m && a != b :: m[a] != m[b]
    requires forall a | a in m :: m[a] in target
    ensures |m| <= |target|
    decreases m.Keys
  {
    if m.Keys != {} {
      var a :| a in m;
      var rest := map x | x in m && x != a :: m[x];
      assert rest.Keys == m.Keys - {a};
      InjectionSize(rest, target - {m[a]});
    }
  }

  lemma {:induction false} ValuesSize<A, B>(m: map<A, B>)
    ensures |m.Values| <= |m|
    decreases m.Keys
  {
    if m.Keys != {} {
      var a :| a in m;
      var rest := map x | x in m && x != a :: m[x];
      assert rest.Keys == m.Keys - {a};
      ValuesSize(rest);
      forall v | v in m.Values ensures v in rest.Values + {m[a]} {
        var k :| k in m && m[k] == v;
        assert k == a || k in rest;
      }
      assert m.Values <= rest.Values + {m[a]};
      assert |m.Values| <= |rest.Values + {m[a]}| by {
        assert rest.Values + {m[a]} == m.Values + (rest.Values + {m[a]} - m.Values);
      }
    } else {
      assert m.Values == {};
    }
  }

  /** The matching argument: if every planned key is picked too, or its value is taken by a
      pick, the plan is at most twice the picks. */
  lemma AtMostTwice<A, B>(plan: map<A, B>, picks: map<A, B>)
    requires forall a, b | a in plan && b in plan && a != b :: plan[a] != plan[b]
    requires forall a | a in plan :: a in picks || plan[a] in picks.Values
    ensures |plan| <= 2 * |picks|
  {
    var lost := map a | a in plan && a !in picks :: plan[a];
    var kept := map a | a in plan && a in picks :: a;
    InjectionSize(lost, picks.Values);
    InjectionSize(kept, picks.Keys);
    ValuesSize(picks);
    assert plan.Keys == kept.Keys + lost.Keys;
    assert |plan.Keys| == |kept.Keys| + |lost.Keys|;
  }

  /** Connection i is an unbound gpio whose component, entry and role resolve. */
  predicate WantsPin(ctx: Context, st: State, i: nat)
  {
    i < |st.connections| && st.connections[i].target == Gpio("") && Reachable(ctx, st.connections[i])
  }

  /** Pin p can serve connection i and is free once bound pins, bus pins and locks are in. */
  ghost predicate FreeFor(ctx: Context, st: State, i: nat, p: string)
    requires WantsPin(ctx, st, i)
  {
    CanServe(ctx.board, LibPinOf(ctx, st.connections[i]), p) && p !in st.used
  }

  /** A conflict-free plan for connections that want a pin. */
  ghost predicate Feasible(ctx: Context, st: State, plan: map<nat, string>)
  {
    && (forall i | i in plan :: WantsPin(ctx, st, i) && plan[i] != "" && FreeFor(ctx, st, i, plan[i]))
    && forall i, j | i in plan && j in plan && i != j :: plan[i] != plan[j]
  }

  /** The pins the pass chose, by connection. */
  function Picks(ctx: Context, st: State): map<nat, string>
  {
    map i: nat | i < |st.connections| && Choice(ctx, st, i).Bind? && Choice(ctx, st, i).target.Gpio?
      :: Choice(ctx, st, i).target.pin
  }

  /** The board has a pin with no name that the solver prefers, for some library pin, to a
      named pin that would do. Taking it reads as having found none. */
  ghost predicate Shadowed(board: Board)
  {
    exists pin: LibPin, q: string :: Shadows(board, pin, q)
  }

  ghost predicate Shadows(board: Board, pin: LibPin, q: string)
  {
    && q != "" && CanServe(board, pin, "") && CanServe(board, pin, q)
    && KeyLeq(KeyNamed(board, pin, ""), KeyNamed(board, pin, q))
  }

  lemma NamedPinsCastNoShadow(board: Board)
    requires forall e | e in board.gpio :: e.name != ""
    ensures !Shadowed(board)
  {
  }

  /** A connection greedy left unbound lost each of its free pins to an earlier pick. */
  lemma LostToEarlierPick(ctx: Context, st: State, i: nat, p: string)
    requires !Shadowed(ctx.board) && p != ""
    requires WantsPin(ctx, st, i) && FreeFor(ctx, st, i, p) && i !in Picks(ctx, st)
    ensures p in Picks(ctx, st).Values
  {
    var pin := LibPinOf(ctx, st.connections[i]);
    var used := After(ctx, st, i).used;
    PickIsLeastUnused(ctx.board, pin, used);
    AfterUsed(ctx, st, i, p);
    assert !Shadows(ctx.board, pin, p);
    hide Shadows, KeyLeq, KeyNamed, CanServe, SolveGpio;
    assert p in used;
    var j :| 0 <= j < i && Choice(ctx, st, j) == Bind(Gpio(p));
    assert Picks(ctx, st)[j] == p;
  }

  lemma PlanAtMostTwice(ctx: Context, st: State, plan: map<nat, string>)
    requires !Shadowed(ctx.board) && Feasible(ctx, st, plan)
    ensures |plan| <= 2 * |Picks(ctx, st)|
  {
    forall i | i in plan ensures i in Picks(ctx, st) || plan[i] in Picks(ctx, st).Values {
      if i !in Picks(ctx, st) {
        LostToEarlierPick(ctx, st, i, plan[i]);
      }
    }
    AtMostTwice(plan, Picks(ctx, st));
  }

  /** The greedy pass bound connection i, read off the solved design. */
  predicate GreedyBinds(d: Design, library: Library, i: nat)
    requires i < |d.connections|
  {
    var t := Solve(d, library).design.connections[i].target;
    t.Gpio? && PickedPin(d, library, i, t.pin)
  }

  function GreedyBound(d: Design, library: Library): set<nat>
  {
    set i: nat | i < |d.connections| && GreedyBinds(d, library, i)
  }

  lemma PickIsBound(d: Design, library: Library, board: Board, i: nat)
    requires BoardOf(d, library) == Some(board)
    requires i in Picks(ContextOf(d, library, board), Locked(d, ContextOf(d, library, board)))
    ensures i in GreedyBound(d, library)
  {
    var ctx := ContextOf(d, library, board);
    var st := Locked(d, ctx);
    SolvedConnection(d, library, board, i);
    GpioChoice(ctx, st, i, Picks(ctx, st)[i]);
    assert GreedyBinds(d, library, i);
  }

  /** What greedy bound, read off the solved design, is what the pass chose. */
  lemma BoundArePicks(d: Design, library: Library, board: Board)
    requires BoardOf(d, library) == Some(board)
    ensures GreedyBound(d, library) == Picks(ContextOf(d, library, board), Locked(d, ContextOf(d, library, board))).Keys
  {
    var ctx := ContextOf(d, library, board);
    var st := Locked(d, ctx);
    forall i | i in Picks(ctx, st) ensures i in GreedyBound(d, library) {
      PickIsBound(d, library, board, i);
    }
    forall i | i in GreedyBound(d, library) ensures i in Picks(ctx, st) {
      SolvedConnection(d, library, board, i);
      hide Solve, Locked, Choice;
    }
  }

  /** Half-optimality, for every design, library and plan on a board that shadows no pin. */
  lemma GreedyBindsAtLeastHalf(d: Design, library: Library, board: Board, plan: map<nat, string>)
    requires BoardOf(d, library) == Some(board) && !Shadowed(board)
    requires Feasible(ContextOf(d, library, board), Locked(d, ContextOf(d, library, board)), plan)
    ensures |plan| <= 2 * |GreedyBound(d, library)|
  {
    PlanAtMostTwice(ContextOf(d, library, board), Locked(d, ContextOf(d, library, board)), plan);
    BoundArePicks(d, library, board);
    hide Locked, Picks, GreedyBound, Feasible;
  }

  // -------------------------------------------------------- the bound is tight

  const READS := LibPin("D", "digital_in", false, false, false, false, None)
  const SENSES := LibPin("A", "analog_in", false, false, false, false, None)
  const ADC_FIRST: GpioTable := [BoardPin("A0", {"gpio", "adc"}), BoardPin("D1", {"gpio"})]

  function TwoPins(gpio: GpioTable): Library
  {
    Library(map["b" := Board("esp32", gpio, [], map[])],
            map["part" := LibComponent("part", "sensor", [READS, SENSES], None, None)])
  }

  const TWO_UNBOUND := Design(Some("b"), [Component("c", "part", [], None)], [],
                              [Connection("c", "D", Gpio("")), Connection("c", "A", Gpio(""))])

  lemma TwoUnboundContext(gpio: GpioTable)
    ensures BoardOf(TWO_UNBOUND, TwoPins(gpio)) == Some(Board("esp32", gpio, [], map[]))
    ensures
      var ctx := ContextOf(TWO_UNBOUND, TwoPins(gpio), Board("esp32", gpio, [], map[]));
      && Locked(TWO_UNBOUND, ctx).connections == TWO_UNBOUND.connections && Locked(TWO_UNBOUND, ctx).used == {}
      && ComponentWithPin(ctx, TWO_UNBOUND.connections[0]).Leave?
      && ComponentWithPin(ctx, TWO_UNBOUND.connections[1]).Leave?
      && LibPinOf(ctx, TWO_UNBOUND.connections[0]) == READS && LibPinOf(ctx, TWO_UNBOUND.connections[1]) == SENSES
  {
    var ctx := ContextOf(TWO_UNBOUND, TwoPins(gpio), Board("esp32", gpio, [], map[]));
    assert FindComponent(TWO_UNBOUND.components, "c") == Some(TWO_UNBOUND.components[0]);
    assert FindRole([READS, SENSES], "A") == Some(SENSES) by {
      assert [READS, SENSES][1..] == [SENSES];
    }
    forall j | 0 <= j < 2 ensures LockedConnection(ctx, TWO_UNBOUND.connections[j]) == TWO_UNBOUND.connections[j] {
    }
    LocksAfterConnections(ctx, Start(TWO_UNBOUND, ctx), 2, 0);
    LocksAfterConnections(ctx, Start(TWO_UNBOUND, ctx), 2, 1);
    forall p ensures p !in Locked(TWO_UNBOUND, ctx).used {
      UsedAfterLocks(TWO_UNBOUND, ctx, p);
    }
  }

  lemma TightChoices(board: Board, ctx: Context, st: State)
    requires board == Board("esp32", ADC_FIRST, [], map[])
    requires ctx == ContextOf(TWO_UNBOUND, TwoPins(ADC_FIRST), board) && st == Locked(TWO_UNBOUND, ctx)
    ensures Choice(ctx, st, 0) == Bind(Gpio("A0")) && !Choice(ctx, st, 1).Bind?
  {
    TwoUnboundContext(ADC_FIRST);
    AdcFirstPicks(board, {});
    hide SolveGpio, CanServe;
    assert Choice(ctx, st, 0) == Bind(Gpio("A0"));
    AfterUsed(ctx, st, 1, "A0");
    AdcFirstPicks(board, After(ctx, st, 1).used);
  }

  lemma TightPicks(board: Board, ctx: Context, st: State)
    requires board == Board("esp32", ADC_FIRST, [], map[])
    requires ctx == ContextOf(TWO_UNBOUND, TwoPins(ADC_FIRST), board) && st == Locked(TWO_UNBOUND, ctx)
    ensures Feasible(ctx, st, map[0 := "D1", 1 := "A0"]) && Picks(ctx, st) == map[0 := "A0"]
  {
    TwoUnboundContext(ADC_FIRST);
    AdcFirstPicks(board, {});
    TightChoices(board, ctx, st);
    assert "D1"[0] != "A0"[0];
    PairIsFeasible(ctx, st, "D1", "A0");
    OnePick(ctx, st, "A0");
  }

  /** Greedy can do as badly as the bound allows: the digital pin takes the only analog one, so
      one connection is bound where a plan binds two. */
  lemma HalfIsTight()
    ensures
      var ctx := ContextOf(TWO_UNBOUND, TwoPins(ADC_FIRST), Board("esp32", ADC_FIRST, [], map[]));
      var plan := map[0 := "D1", 1 := "A0"];
      && Feasible(ctx, Locked(TWO_UNBOUND, ctx), plan) && |plan| == 2
      && |GreedyBound(TWO_UNBOUND, TwoPins(ADC_FIRST))| == 1
  {
    hide Locked, Picks, GreedyBound, Feasible, Solve;
    var board := Board("esp32", ADC_FIRST, [], map[]);
    var ctx := ContextOf(TWO_UNBOUND, TwoPins(ADC_FIRST), board);
    TightPicks(board, ctx, Locked(TWO_UNBOUND, ctx));
    assert BoardOf(TWO_UNBOUND, TwoPins(ADC_FIRST)) == Some(board);
    BoundArePicks(TWO_UNBOUND, TwoPins(ADC_FIRST), board);
    assert map[0 := "A0"].Keys == {0};
  }

  lemma PairIsFeasible(ctx: Context, st: State, p0: string, p1: string)
    requires p0 != p1 && p0 != "" && p1 != ""
    requires WantsPin(ctx, st, 0) && FreeFor(ctx, st, 0, p0)
    requires WantsPin(ctx, st, 1) && FreeFor(ctx, st, 1, p1)
    ensures Feasible(ctx, st, map[0 := p0, 1 := p1])
  {
  }

  lemma OnePick(ctx: Context, st: State, p: string)
    requires |st.connections| == 2 && Choice(ctx, st, 0) == Bind(Gpio(p)) && !Choice(ctx, st, 1).Bind?
    ensures Picks(ctx, st) == map[0 := p]
  {
    hide Choice;
  }

  lemma PlainKey(pin: LibPin, caps: set<string>, name: string)
    requires !pin.requiresPwm && caps <= {"gpio", "adc"}
    ensures KeyOf("esp32", pin, BoardPin(name, caps)) == Key(0, 0, 0, name)
  {
    assert "gpio"[0] == 'g' && "adc"[0] == 'a';
    assert forall tag | tag in SPECIAL :: tag[0] == 'b' || tag[0] == 's';
    assert "adc2" !in {"gpio", "adc"} by {
      assert |"adc2"| == 4 && |"adc"| == 3 && "gpio"[0] != "adc2"[0];
    }
  }

  /** The pick on a board of two pins, a before b. */
  lemma TwoPinPick(board: Board, a: BoardPin, b: BoardPin, pin: LibPin, used: set<string>)
    requires board.gpio == [a, b]
    requires !KeyLeq(KeyOf(board.chipVariant, pin, b), KeyOf(board.chipVariant, pin, a))
    ensures forall name :: CanServe(board, pin, name) <==>
      (name == a.name && Eligible(pin, a.caps)) || (name == b.name && Eligible(pin, b.caps))
    ensures Eligible(pin, a.caps) && a.name !in used ==> SolveGpio(board, pin, used) == Some(a.name)
    ensures (Eligible(pin, a.caps) ==> a.name in used) && !Eligible(pin, b.caps) ==> SolveGpio(board, pin, used).None?
  {
    assert board.gpio[0] == a && board.gpio[1] == b;
    CapsOfEntry(board.gpio, 0);
    CapsOfEntry(board.gpio, 1);
    PickIsLeastUnused(board, pin, used);
    hide KeyOf, KeyLeq, Eligible, SolveGpio;
  }

  lemma AdcFirstPicks(board: Board, used: set<string>)
    requires board == Board("esp32", ADC_FIRST, [], map[])
    ensures CanServe(board, READS, "D1") && CanServe(board, SENSES, "A0")
    ensures used == {} ==> SolveGpio(board, READS, used) == Some("A0")
    ensures "A0" in used ==> SolveGpio(board, SENSES, used).None?
  {
    var a, b := BoardPin("A0", {"gpio", "adc"}), BoardPin("D1", {"gpio"});
    PlainKey(READS, a.caps, a.name);
    PlainKey(READS, b.caps, b.name);
    PlainKey(SENSES, a.caps, a.name);
    PlainKey(SENSES, b.caps, b.name);
    TwoPinPick(board, a, b, READS, used);
    TwoPinPick(board, a, b, SENSES, used);
    hide KeyOf, KeyLeq, SolveGpio, CanServe;
  }

  // ----------------------------------------------------- the bound, exactly

  ghost predicate BoundHolds(d: Design, library: Library, board: Board, plan: map<nat, string>)
  {
    && BoardOf(d, library) == Some(board)
    && Feasible(ContextOf(d, library, board), Locked(d, ContextOf(d, library, board)), plan)
    ==> |plan| <= 2 * |GreedyBound(d, library)|
  }

  /** Every named pin of the board but q, each bound by a connection that is there already. */
  function Occupied(gpio: seq<BoardPin>, q: string): seq<Connection>
  {
    seq(|gpio|, i requires 0 <= i < |gpio| =>
      Connection("x", "", if gpio[i].name == q || gpio[i].name == "" then Rail("") else Gpio(gpio[i].name)))
  }

  function LoneLibrary(board: Board, pin: LibPin): Library
  {
    Library(map["b" := board], map["part" := LibComponent("part", "sensor", [pin], None, None)])
  }

  /** One connection wants a pin; only q and the unnamed pin are free. */
  function Lone(board: Board, pin: LibPin, q: string): Design
  {
    Design(Some("b"), [Component("c", "part", [], None)], [],
           [Connection("c", pin.role, Gpio(""))] + Occupied(board.gpio, q))
  }

  lemma LoneContext(board: Board, pin: LibPin, q: string)
    requires q != ""
    ensures BoardOf(Lone(board, pin, q), LoneLibrary(board, pin)) == Some(board)
    ensures
      var d := Lone(board, pin, q);
      var ctx := ContextOf(d, LoneLibrary(board, pin), board);
      && Locked(d, ctx).connections == d.connections
      && ComponentWithPin(ctx, d.connections[0]).Leave? && LibPinOf(ctx, d.connections[0]) == pin
      && Locked(d, ctx).used == ConnectionPins(d.connections)
  {
    var d := Lone(board, pin, q);
    var ctx := ContextOf(d, LoneLibrary(board, pin), board);
    assert FindComponent(d.components, "c") == Some(d.components[0]);
    NoLocksHere(ctx, d);
    assert BusPins(d.buses) == {};
    hide LockFor, Occupied, FindComponent;
    forall j | 0 <= j < |d.connections| ensures Locked(d, ctx).connections[j] == d.connections[j] {
      LocksAfterConnections(ctx, Start(d, ctx), |d.connections|, j);
    }
    forall p ensures p in Locked(d, ctx).used <==> p in ConnectionPins(d.connections) {
      UsedAfterLocks(d, ctx, p);
    }
  }

  lemma LonePins(board: Board, pin: LibPin, q: string, p: string)
    ensures
      p in ConnectionPins(Lone(board, pin, q).connections)
      <==> p != "" && p != q && exists i :: 0 <= i < |board.gpio| && board.gpio[i].name == p
  {
    var connections := Lone(board, pin, q).connections;
    if i :| 0 <= i < |board.gpio| && board.gpio[i].name == p {
      assert connections[i + 1] == Occupied(board.gpio, q)[i];
    }
  }

  lemma NoLocksHere(ctx: Context, d: Design)
    requires ctx.components == [Component("c", "part", [], None)]
    ensures forall c :: LockFor(ctx, c) == None
  {
    assert ctx.components[..0] == [];
  }

  /** The lone connection is starved: its pick is the pin without a name. */
  lemma LoneIsStarved(board: Board, pin: LibPin, q: string)
    requires Shadows(board, pin, q)
    ensures
      var d := Lone(board, pin, q);
      var ctx := ContextOf(d, LoneLibrary(board, pin), board);
      Feasible(ctx, Locked(d, ctx), map[0 := q]) && !Choice(ctx, Locked(d, ctx), 0).Bind?
  {
    var d := Lone(board, pin, q);
    var ctx := ContextOf(d, LoneLibrary(board, pin), board);
    var st := Locked(d, ctx);
    LoneContext(board, pin, q);
    LonePins(board, pin, q, q);
    LonePick(board, pin, q);
    hide Locked, SolveGpio, Occupied, CanServe, ConnectionPins, ComponentWithPin;
    StarvedByName(ctx, st, q);
  }

  lemma StarvedByName(ctx: Context, st: State, q: string)
    requires WantsPin(ctx, st, 0) && q != "" && FreeFor(ctx, st, 0, q)
    requires SolveGpio(ctx.board, LibPinOf(ctx, st.connections[0]), st.used) == Some("")
    ensures Feasible(ctx, st, map[0 := q]) && !Choice(ctx, st, 0).Bind?
  {
    hide SolveGpio, CanServe;
  }

  lemma LonePick(board: Board, pin: LibPin, q: string)
    requires Shadows(board, pin, q)
    ensures SolveGpio(board, pin, ConnectionPins(Lone(board, pin, q).connections)) == Some("")
  {
    var used := ConnectionPins(Lone(board, pin, q).connections);
    PickIsLeastUnused(board, pin, used);
    LonePins(board, pin, q, q);
    LonePins(board, pin, q, "");
    var pick := SolveGpio(board, pin, used).value;
    LonePins(board, pin, q, pick);
    hide Lone, SolveGpio, ConnectionPins;
    assert pick == "" || pick == q;
    if pick == q {
      StrLeqAntisymmetric(KeyNamed(board, pin, "").name, KeyNamed(board, pin, q).name);
    }
  }

  lemma NothingGreedy(board: Board, pin: LibPin, q: string)
    requires Shadows(board, pin, q)
    ensures GreedyBound(Lone(board, pin, q), LoneLibrary(board, pin)) == {}
  {
    var d, library := Lone(board, pin, q), LoneLibrary(board, pin);
    var ctx := ContextOf(d, library, board);
    LoneContext(board, pin, q);
    LoneIsStarved(board, pin, q);
    forall i | 0 <= i < |d.connections| ensures !GreedyBinds(d, library, i) {
      SolvedConnection(d, library, board, i);
      hide Locked, Choice, Solve;
    }
  }

  const NO_NAME: GpioTable := [BoardPin("", {"gpio"}), BoardPin("D1", {"gpio"})]

  /** Such boards exist: of two plain pins, the one with no name comes first. */
  lemma UnnamedPinShadows()
    ensures Shadowed(Board("esp32", NO_NAME, [], map[]))
  {
    var board := Board("esp32", NO_NAME, [], map[]);
    var a, b := BoardPin("", {"gpio"}), BoardPin("D1", {"gpio"});
    assert board.gpio[0] == a && board.gpio[1] == b;
    CapsOfEntry(board.gpio, 0);
    CapsOfEntry(board.gpio, 1);
    PlainKey(READS, a.caps, a.name);
    PlainKey(READS, b.caps, b.name);
    assert CanServe(board, READS, "") && CanServe(board, READS, "D1");
    assert Shadows(board, READS, "D1");
  }

  /** So the bound holds for every design, library and plan on a board if and only if no pin
      without a name shadows one that has one. */
  lemma HalfBoundIff(board: Board)
    ensures !Shadowed(board) <==>
      forall d: Design, library: Library, plan: map<nat, string> :: BoundHolds(d, library, board, plan)
  {
    hide Feasible, GreedyBound, Solve, Locked, Shadows;
    if Shadowed(board) {
      var pin: LibPin, q: string :| Shadows(board, pin, q);
      LoneIsStarved(board, pin, q);
      NothingGreedy(board, pin, q);
      assert !BoundHolds(Lone(board, pin, q), LoneLibrary(board, pin), board, map[0 := q]);
    } else {
      forall d: Design, library: Library, plan: map<nat, string> ensures BoundHolds(d, library, board, plan) {
        if BoardOf(d, library) == Some(board)
           && Feasible(ContextOf(d, library, board), Locked(d, ContextOf(d, library, board)), plan) {
          GreedyBindsAtLeastHalf(d, library, board, plan);
        }
      }
    }
  }
}
