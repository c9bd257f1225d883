/** What an edit leaves in the document, told without the functions that compute it: where a
    new part's pins are wired, which buses come with it, what a removal keeps, what a bus added
    by hand holds (wirestudio/designs/seed.py:39-125, wirestudio/agent/tools.py:641-690, 730-772). */
module EditOutcomes {
  import opened Options
  import opened Text
  import opened BusIds
  import opened Selections
  import opened DesignModel
  import opened PinSolver
  import opened SolverDecisions
  import opened SolverTrace
  import opened DesignEdits
  import opened DesignInvariant
  import opened AddedPart

  // ------------------------------------------------------------ where pins go

  predicate InSupplyBand(r: PowerRail, entry: LibComponent)
  {
    && 0.0 < r.voltage
    && (entry.vccMin.Some? ==> entry.vccMin.value <= r.voltage)
    && (entry.vccMax.Some? ==> r.voltage <= entry.vccMax.value)
  }

  /** The first rail of least voltage in the part's band. */
  predicate LeastInBand(rails: seq<PowerRail>, k: int, entry: LibComponent)
  {
    && 0 <= k < |rails| && InSupplyBand(rails[k], entry)
    && forall j :: 0 <= j < |rails| && InSupplyBand(rails[j], entry) ==>
         rails[k].voltage < rails[j].voltage || (rails[k].voltage == rails[j].voltage && k <= j)
  }

  predicate FirstLive(rails: seq<PowerRail>, k: int)
  {
    0 <= k < |rails| && 0.0 < rails[k].voltage && forall j :: 0 <= j < k ==> rails[j].voltage <= 0.0
  }

  predicate FirstZero(rails: seq<PowerRail>, k: int)
  {
    0 <= k < |rails| && rails[k].voltage == 0.0 && forall j :: 0 <= j < k ==> rails[j].voltage != 0.0
  }

  /** `gnd` stands somewhere in the name, its letters small or capital. */
  ghost predicate ReadsGround(name: string)
  {
    exists i :: GroundAt(name, i)
  }

  predicate GroundAt(name: string, i: int)
  {
    0 <= i <= |name| - 3 && name[i] in {'g', 'G'} && name[i + 1] in {'n', 'N'} && name[i + 2] in {'d', 'D'}
  }

  ghost predicate FirstNamedGround(rails: seq<PowerRail>, k: int)
  {
    0 <= k < |rails| && ReadsGround(rails[k].name) && forall j :: 0 <= j < k ==> !ReadsGround(rails[j].name)
  }

  lemma GroundReads(r: PowerRail)
    ensures NamesGround(r) <==> ReadsGround(r.name)
  {
    var low := LowerCase(r.name);
    ContainsExactly(low, "gnd");
    forall i | 0 <= i < |low| {
      LowersTo(r.name[i]);
    }
    if i :| HasAt(low, "gnd", i) {
      assert low[i + 0] == "gnd"[0] && low[i + 1] == "gnd"[1] && low[i + 2] == "gnd"[2];
      assert GroundAt(r.name, i);
    }
    if i :| GroundAt(r.name, i) {
      assert HasAt(low, "gnd", i);
    }
  }

  lemma LowersTo(c: char)
    ensures LowerChar(c) == 'g' <==> c in {'g', 'G'}
    ensures LowerChar(c) == 'n' <==> c in {'n', 'N'}
    ensures LowerChar(c) == 'd' <==> c in {'d', 'D'}
  {
  }

  /** The supply a power pin is put on: a rail in the part's band, else the one called 3V3, else
      the first with a voltage, else the first, else 3V3 by name. */
  ghost predicate IsSupply(rails: seq<PowerRail>, entry: LibComponent, name: string)
  {
    if exists k :: LeastInBand(rails, k, entry) then exists k :: LeastInBand(rails, k, entry) && rails[k].name == name
    else if exists r :: r in rails && r.name == "3V3" then name == "3V3"
    else if exists k :: FirstLive(rails, k) then exists k :: FirstLive(rails, k) && rails[k].name == name
    else name == if rails != [] then rails[0].name else "3V3"
  }

  /** The ground a ground pin is put on: the first 0 V rail, if it has a name, else the first
      whose name contains gnd in either case, else GND. */
  ghost predicate IsGround(rails: seq<PowerRail>, name: string)
  {
    if exists k :: FirstZero(rails, k) && rails[k].name != ""
    then exists k :: FirstZero(rails, k) && rails[k].name == name
    else if exists k :: FirstNamedGround(rails, k)
    then exists k :: FirstNamedGround(rails, k) && rails[k].name == name
    else name == "GND"
  }

  /** Where a library pin of a new part starts out. */
  ghost predicate StartsOn(t: Target, pin: LibPin, rails: seq<PowerRail>, buses: seq<Bus>, entry: LibComponent)
  {
    if pin.kind == "power" then t.Rail? && IsSupply(rails, entry, t.rail)
    else if pin.kind == "ground" then t.Rail? && IsGround(rails, t.rail)
    else if pin.kind == "passthrough" then t == Net("", "")
    else if pin.kind in BUS_TYPES then
      if exists k :: FirstBusAt(buses, k, BUS_TYPES[pin.kind])
      then exists k :: FirstBusAt(buses, k, BUS_TYPES[pin.kind]) && t == OnBus(buses[k].id)
      else t == OnBus("")
    else t == Gpio("")
  }

  lemma {:induction false} LowestIsLeast(rails: seq<PowerRail>, entry: LibComponent)
    ensures LowestRail(rails, entry).Some? ==>
      exists k :: LeastInBand(rails, k, entry) && rails[k] == LowestRail(rails, entry).value
    ensures LowestRail(rails, entry).None? ==> forall k :: !LeastInBand(rails, k, entry)
  {
    if rails != [] {
      LowestIsLeast(rails[1..], entry);
      var rest, lowest := LowestRail(rails[1..], entry), LowestRail(rails, entry);
      if lowest.Some? {
        if lowest == Some(rails[0]) && InBand(rails[0], entry)
           && (rest.None? || rails[0].voltage <= rest.value.voltage) {
          assert LeastInBand(rails, 0, entry);
        } else {
          var k :| LeastInBand(rails[1..], k, entry) && rails[1..][k] == rest.value;
          assert rails[k + 1] == rails[1..][k];
          forall j | 0 <= j < |rails| && InSupplyBand(rails[j], entry)
            ensures rails[k + 1].voltage < rails[j].voltage
                 || (rails[k + 1].voltage == rails[j].voltage && k + 1 <= j)
          {
            assert j > 0 ==> rails[j] == rails[1..][j - 1];
          }
          assert LeastInBand(rails, k + 1, entry);
        }
      } else {
        forall k | 0 <= k < |rails| ensures !InSupplyBand(rails[k], entry) {
          assert rails[k] in rails && !InBand(rails[k], entry);
        }
      }
    }
  }

  predicate FirstWhere(rails: seq<PowerRail>, k: int, p: PowerRail -> bool)
  {
    0 <= k < |rails| && p(rails[k]) && forall j :: 0 <= j < k ==> !p(rails[j])
  }

  lemma {:induction false} FirstRailIsFirst(rails: seq<PowerRail>, p: PowerRail -> bool)
    ensures FirstRail(rails, p).Some? ==> exists k :: FirstWhere(rails, k, p) && rails[k] == FirstRail(rails, p).value
    ensures FirstRail(rails, p).None? ==> forall k :: 0 <= k < |rails| ==> !p(rails[k])
  {
    if rails != [] {
      if p(rails[0]) {
        assert FirstWhere(rails, 0, p);
      } else {
        FirstRailIsFirst(rails[1..], p);
        if FirstRail(rails[1..], p).None? {
          forall k | 0 <= k < |rails| ensures !p(rails[k]) {
            assert k > 0 ==> rails[k] == rails[1..][k - 1];
          }
        } else {
          var k :| FirstWhere(rails[1..], k, p) && rails[1..][k] == FirstRail(rails[1..], p).value;
          assert rails[k + 1] == rails[1..][k];
          forall j | 0 <= j < k + 1 ensures !p(rails[j]) {
            assert j > 0 ==> rails[j] == rails[1..][j - 1];
          }
          assert FirstWhere(rails, k + 1, p);
        }
      }
    }
  }

  lemma SupplyIsChosen(rails: seq<PowerRail>, entry: LibComponent)
    ensures IsSupply(rails, entry, PowerRailFor(rails, entry))
  {
    LowestIsLeast(rails, entry);
    FirstRailIsFirst(rails, Is3V3);
    FirstRailIsFirst(rails, IsLive);
    hide LowestRail, FirstRail, LeastInBand;
    assert forall r :: r in rails <==> exists k :: 0 <= k < |rails| && rails[k] == r;
    if FirstRail(rails, IsLive).Some? {
      var k :| FirstWhere(rails, k, IsLive) && rails[k] == FirstRail(rails, IsLive).value;
      assert FirstLive(rails, k);
    }
  }

  lemma GroundIsChosen(rails: seq<PowerRail>)
    ensures IsGround(rails, GroundRailFor(rails))
  {
    FirstRailIsFirst(rails, IsZero);
    FirstRailIsFirst(rails, NamesGround);
    forall k | 0 <= k < |rails| ensures NamesGround(rails[k]) <==> ReadsGround(rails[k].name) {
      GroundReads(rails[k]);
    }
    hide FirstRail, NamesGround, ReadsGround;
    if FirstRail(rails, IsZero).Some? {
      var k :| FirstWhere(rails, k, IsZero) && rails[k] == FirstRail(rails, IsZero).value;
      assert FirstZero(rails, k);
    }
    if FirstRail(rails, NamesGround).Some? {
      var k :| FirstWhere(rails, k, NamesGround) && rails[k] == FirstRail(rails, NamesGround).value;
      assert FirstNamedGround(rails, k);
    }
  }

  lemma DefaultStarts(pin: LibPin, rails: seq<PowerRail>, buses: seq<Bus>, entry: LibComponent)
    ensures StartsOn(DefaultTarget(pin, rails, buses, entry), pin, rails, buses, entry)
  {
    SupplyIsChosen(rails, entry);
    GroundIsChosen(rails);
    BusTypesAgree(pin.kind);
    hide IsSupply, IsGround, PowerRailFor, GroundRailFor, FirstBusAt, BusTypeForPin;
    if pin.kind in BUS_TYPES {
      BusIsFirst(buses, BUS_TYPES[pin.kind]);
    }
  }

  function RailsOf(d: Design, library: Library): seq<PowerRail>
  {
    if BoardOf(d, library).Some? then BoardOf(d, library).value.rails else []
  }

  /** Every pin of a part just added starts out where its kind says, on the buses the document
      has by then. */
  lemma NewPinsStart(env: Env, d: Design, libraryId: string, hint: string, k: nat)
    requires libraryId in env.library.components && k < |env.library.components[libraryId].pins|
    ensures
      var a, entry := AddWithConnections(env, d, libraryId, hint), env.library.components[libraryId];
      && |a.design.connections| == |d.connections| + |entry.pins|
      && (var c := a.design.connections[|d.connections| + k];
          && IsFor(c, a.id, entry.pins[k].role)
          && StartsOn(c.target, entry.pins[k], RailsOf(d, env.library), a.design.buses, entry))
  {
    hide Appended, Seeds, StartsOn, DefaultTarget, BusResolves, BoardOf, RailsOf, AddWithConnections;
    var first, entry := Appended(env, d, libraryId, hint), env.library.components[libraryId];
    FirstPinsStart(env, d, libraryId, hint, k);
    RenamedStart(env, d, libraryId, hint, |d.connections| + k);
  }

  lemma FirstPinsStart(env: Env, d: Design, libraryId: string, hint: string, k: nat)
    requires libraryId in env.library.components && k < |env.library.components[libraryId].pins|
    ensures
      var a, entry := Appended(env, d, libraryId, hint), env.library.components[libraryId];
      && |a.design.connections| == |d.connections| + |entry.pins|
      && (var c := a.design.connections[|d.connections| + k];
          && IsFor(c, a.id, entry.pins[k].role)
          && StartsOn(c.target, entry.pins[k], RailsOf(d, env.library), a.design.buses, entry))
  {
    hide Appended, Seeds, StartsOn, DefaultTarget, BusResolves, BoardOf;
    var first, entry := Appended(env, d, libraryId, hint), env.library.components[libraryId];
    var rails := RailsOf(d, env.library);
    AppendedPieces(env, d, libraryId, hint);
    SeedsAnchored(first.id, entry.pins, |entry.pins|, rails, first.design.buses, entry);
    DefaultStarts(entry.pins[k], rails, first.design.buses, entry);
    var c := first.design.connections[|d.connections| + k];
    assert c == Seeds(first.id, entry.pins, |entry.pins|, rails, first.design.buses, entry)[k];
  }

  lemma RenamedStart(env: Env, d: Design, libraryId: string, hint: string, j: nat)
    requires libraryId in env.library.components
    requires
      var first := Appended(env, d, libraryId, hint);
      j < |first.design.connections| && first.design.connections[j].componentId == first.id
    ensures
      var a, first := AddWithConnections(env, d, libraryId, hint), Appended(env, d, libraryId, hint);
      && a.design.buses == first.design.buses && |a.design.connections| == |first.design.connections|
      && a.design.connections[j] == first.design.connections[j].(componentId := a.id)
  {
    hide Appended, SuffixedId;
  }

  // ---------------------------------------------------- where its pins end up

  /** On the first bus of the type, or on none where there is no such bus. */
  ghost predicate OnFirstBus(t: Target, buses: seq<Bus>, kind: string)
  {
    if exists k :: FirstBusAt(buses, k, kind)
    then exists k :: FirstBusAt(buses, k, kind) && t == OnBus(buses[k].id)
    else t == OnBus("")
  }

  lemma {:induction false} KeepsFirstBus(buses: seq<Bus>, drop: set<string>, kind: string, k: int)
    requires FirstBusAt(buses, k, kind) && buses[k].id !in drop
    ensures exists j :: FirstBusAt(KeepBuses(buses, drop), j, kind) && KeepBuses(buses, drop)[j] == buses[k]
    decreases |buses|
  {
    var rest, last := buses[..|buses| - 1], buses[|buses| - 1];
    if k < |rest| {
      KeepsFirstBus(rest, drop, kind, k);
      var j :| FirstBusAt(KeepBuses(rest, drop), j, kind) && KeepBuses(rest, drop)[j] == buses[k];
      assert FirstBusAt(KeepBuses(buses, drop), j, kind);
    } else {
      var kept := KeepBuses(rest, drop);
      forall j | 0 <= j < |kept| ensures kept[j].kind != kind {
        KeptIsOld(rest, drop, kept[j]);
      }
      assert FirstBusAt(KeepBuses(buses, drop), |kept|, kind);
    }
  }

  lemma {:induction false} KeptIsOld(buses: seq<Bus>, drop: set<string>, b: Bus)
    ensures b in KeepBuses(buses, drop) <==> b in buses && b.id !in drop
    decreases |buses|
  {
    if buses != [] {
      KeptIsOld(buses[..|buses| - 1], drop, b);
      assert buses == buses[..|buses| - 1] + [buses[|buses| - 1]];
    }
  }

  /** Dropping buses and detaching from them leaves a bus pin on the first bus that stays, or
      with no bus. */
  lemma DetachedStart(c: Connection, buses: seq<Bus>, drop: set<string>, kind: string)
    requires OnFirstBus(c.target, buses, kind)
    ensures
      var t := Detach(c, drop).target;
      t == OnBus("") || OnFirstBus(t, KeepBuses(buses, drop), kind)
  {
    hide KeepBuses;
    if k :| FirstBusAt(buses, k, kind) && c.target == OnBus(buses[k].id) {
      if buses[k].id !in drop {
        KeepsFirstBus(buses, drop, kind, k);
        var j :| FirstBusAt(KeepBuses(buses, drop), j, kind) && KeepBuses(buses, drop)[j] == buses[k];
        OneFirstBus(KeepBuses(buses, drop), kind);
      }
    }
  }

  lemma OneFirstBus(buses: seq<Bus>, kind: string)
    ensures forall j, k :: FirstBusAt(buses, j, kind) && FirstBusAt(buses, k, kind) ==> j == k
  {
  }

  /** What the seeded design holds for the pin before the solver runs. */
  ghost predicate ReadyToSolve(t: Target, pin: LibPin, rails: seq<PowerRail>, buses: seq<Bus>, entry: LibComponent)
  {
    if pin.kind in {"power", "ground", "passthrough"} then StartsOn(t, pin, rails, buses, entry)
    else pin.kind in BUS_TYPES ==> t == OnBus("") || OnFirstBus(t, buses, BUS_TYPES[pin.kind])
  }

  lemma PlainKinds()
    ensures forall kind | kind in {"power", "ground", "passthrough"} :: kind !in BUS_TYPES
  {
    assert BUS_TYPES.Keys == {"i2c_sda", "i2c_scl", "spi_clk", "spi_miso", "spi_mosi", "i2s_lrclk", "i2s_bclk",
                              "uart_rx", "uart_tx", "onewire_data"};
    assert "power"[1] == 'o' && "ground"[0] == 'g' && "passthrough"[1] == 'a';
  }

  lemma DroppedReady(c: Connection, pin: LibPin, rails: seq<PowerRail>, buses: seq<Bus>, entry: LibComponent,
                     drop: set<string>)
    requires StartsOn(c.target, pin, rails, buses, entry)
    ensures ReadyToSolve(Detach(c, drop).target, pin, rails, KeepBuses(buses, drop), entry)
  {
    hide IsSupply, IsGround, OnFirstBus, FirstBusAt, KeepBuses;
    PlainKinds();
    if pin.kind in BUS_TYPES {
      StartsOnFirstBus(c.target, pin, rails, buses, entry);
      DetachedStart(c, buses, drop, BUS_TYPES[pin.kind]);
    }
  }

  lemma SeededPieces(env: Env, d: Design, libraryId: string, hint: string, k: nat)
    requires libraryId in env.library.components && k < |env.library.components[libraryId].pins|
    ensures
      var a, s := AddWithConnections(env, d, libraryId, hint), Seeded(env, d, libraryId, hint);
      var drop := EmptyBuses(BusIdSet(d.buses), a.design.buses);
      && s.id == a.id && s.design.board == a.design.board == d.board
      && s.design.buses == KeepBuses(a.design.buses, drop)
      && |s.design.connections| == |a.design.connections| == |d.connections| + |env.library.components[libraryId].pins|
      && s.design.connections[|d.connections| + k] == Detach(a.design.connections[|d.connections| + k], drop)
  {
    hide StartsOn, Appended, EmptyBuses, KeepBuses;
    AppendedPieces(env, d, libraryId, hint);
    NewPinsStart(env, d, libraryId, hint, k);
  }

  lemma SeededReady(env: Env, d: Design, libraryId: string, hint: string, k: nat)
    requires libraryId in env.library.components && k < |env.library.components[libraryId].pins|
    ensures
      var s, entry := Seeded(env, d, libraryId, hint), env.library.components[libraryId];
      && |s.design.connections| == |d.connections| + |entry.pins| && s.design.board == d.board
      && (var c := s.design.connections[|d.connections| + k];
          && IsFor(c, s.id, entry.pins[k].role)
          && ReadyToSolve(c.target, entry.pins[k], RailsOf(d, env.library), s.design.buses, entry)
          && (BoardOf(d, env.library).None? && entry.pins[k].kind in BUS_TYPES ==>
                OnFirstBus(c.target, s.design.buses, BUS_TYPES[entry.pins[k].kind])))
  {
    hide Seeded, AddWithConnections, EmptyBuses, KeepBuses, StartsOn, ReadyToSolve, OnFirstBus, BoardOf, RailsOf;
    var a, entry := AddWithConnections(env, d, libraryId, hint), env.library.components[libraryId];
    var pin, rails := entry.pins[k], RailsOf(d, env.library);
    SeededPieces(env, d, libraryId, hint, k);
    NewPinsStart(env, d, libraryId, hint, k);
    var c := a.design.connections[|d.connections| + k];
    DroppedReady(c, pin, rails, a.design.buses, entry, EmptyBuses(BusIdSet(d.buses), a.design.buses));
    if BoardOf(d, env.library).None? {
      NothingDropped(env, d, libraryId, hint);
      if pin.kind in BUS_TYPES {
        StartsOnFirstBus(c.target, pin, rails, a.design.buses, entry);
      }
    }
  }

  lemma StartsOnFirstBus(t: Target, pin: LibPin, rails: seq<PowerRail>, buses: seq<Bus>, entry: LibComponent)
    requires StartsOn(t, pin, rails, buses, entry) && pin.kind in BUS_TYPES
    ensures OnFirstBus(t, buses, BUS_TYPES[pin.kind])
  {
    PlainKinds();
  }

  /** Without a board no bus is seeded, so none is dropped. */
  lemma NothingDropped(env: Env, d: Design, libraryId: string, hint: string)
    requires libraryId in env.library.components && BoardOf(d, env.library).None?
    ensures
      var a := AddWithConnections(env, d, libraryId, hint).design;
      && EmptyBuses(BusIdSet(d.buses), a.buses) == {} && KeepBuses(a.buses, {}) == a.buses
      && forall c :: Detach(c, {}) == c
  {
    var a := AddWithConnections(env, d, libraryId, hint).design;
    assert a.buses == d.buses;
    KeepAll(d.buses);
    forall b | b in d.buses ensures b.id in BusIdSet(d.buses) {
    }
  }

  lemma {:induction false} KeepAll(buses: seq<Bus>)
    ensures KeepBuses(buses, {}) == buses
  {
    if buses != [] {
      KeepAll(buses[..|buses| - 1]);
      assert buses == buses[..|buses| - 1] + [buses[|buses| - 1]];
    }
  }

  /** The solver leaves rails and nets, and puts a bus pin on the first bus of its type. */
  lemma SolverSettles(s: Design, library: Library, i: nat, pin: LibPin)
    requires i < |s.connections| && ResolvesTo(s, library, s.connections[i], pin)
    requires s.connections[i].target.OnBus? && pin.kind in BUS_TYPES
    requires s.connections[i].target == OnBus("") || OnFirstBus(s.connections[i].target, s.buses, BUS_TYPES[pin.kind])
    requires BoardOf(s, library).None? ==> OnFirstBus(s.connections[i].target, s.buses, BUS_TYPES[pin.kind])
    ensures |Solve(s, library).design.connections| == |s.connections|
    ensures OnFirstBus(Solve(s, library).design.connections[i].target, s.buses, BUS_TYPES[pin.kind])
  {
    SolveFrame(s, library);
    if BoardOf(s, library).Some? && s.connections[i].target == OnBus("") {
      BusExactly(s, library, BoardOf(s, library).value, i, pin);
    } else if BoardOf(s, library).Some? {
      assert !Unbound(s.connections[i].target);
    }
    hide Solve, ResolvesTo;
  }

  /** The pin a new part's connection resolves to: the first with its role. */
  lemma NewPinResolves(d: Design, s: Design, id: string, libraryId: string, library: Library, k: nat)
    requires libraryId in library.components && k < |library.components[libraryId].pins|
    requires AppendsPart(d, s, id, libraryId, library.components[libraryId].pins)
    requires FirstOfRole(library.components[libraryId].pins, k, library.components[libraryId].pins[k].role)
    ensures ResolvesTo(s, library, s.connections[|d.connections| + k], library.components[libraryId].pins[k])
  {
    var pins := library.components[libraryId].pins;
    assert IsFor(s.connections[|d.connections| + k], id, pins[k].role);
    assert LastEntry(s.components, |d.components|, id);
    assert InstanceOf(s.components, id, libraryId);
  }

  /** Where the pins of an added part end up, rails and buses: each connection takes what the
      last pin of its role gets. A power pin is on a supply, a ground pin on a ground, and a bus
      pin whose role is its own on the first bus of its type in the document as it now is. */
  lemma NewPinsEnd(env: Env, d: Design, libraryId: string, hint: string, k: nat)
    requires libraryId in env.library.components && Ready(env, d, libraryId)
    requires k < |env.library.components[libraryId].pins|
    ensures
      var r, entry := AddKnown(env, d, libraryId, hint).design, env.library.components[libraryId];
      var last := LastOfRole(entry.pins, k);
      var pin, rails := entry.pins[last], RailsOf(d, env.library);
      && |r.connections| == |d.connections| + |entry.pins|
      && (var t := r.connections[|d.connections| + k].target;
          && (pin.kind in {"power", "ground", "passthrough"} ==> StartsOn(t, pin, rails, r.buses, entry))
          && (pin.kind in BUS_TYPES && FirstOfRole(entry.pins, last, pin.role) ==>
                OnFirstBus(t, r.buses, BUS_TYPES[pin.kind])))
  {
    hide Ready, Seeded, AddKnown, Solve, StartsOn, ReadyToSolve, OnFirstBus, LastOfRole, RailsOf, FirstOfRole, BoardOf;
    var entry := env.library.components[libraryId];
    var last, rails := LastOfRole(entry.pins, k), RailsOf(d, env.library);
    var s, pin, m := Seeded(env, d, libraryId, hint), entry.pins[last], |d.connections| + last;
    AddKnownLists(env, d, libraryId, hint);
    SeededReady(env, d, libraryId, hint, last);
    NewTargetIsSolved(env, d, libraryId, hint, k);
    RailsStay(s.design.connections[m].target, pin, rails, s.design.buses, entry);
    SolveFrame(s.design, env.library);
    if pin.kind in BUS_TYPES && FirstOfRole(entry.pins, last, pin.role) {
      NewBusPinEnds(env, d, libraryId, hint, last);
    }
  }

  lemma AddKnownLists(env: Env, d: Design, libraryId: string, hint: string)
    requires libraryId in env.library.components
    ensures
      var r, s := AddKnown(env, d, libraryId, hint).design, Seeded(env, d, libraryId, hint).design;
      r.buses == s.buses && |r.connections| == |s.connections|
  {
    hide Seeded, Solve;
  }

  lemma NewBusPinEnds(env: Env, d: Design, libraryId: string, hint: string, k: nat)
    requires libraryId in env.library.components && Ready(env, d, libraryId)
    requires k < |env.library.components[libraryId].pins|
    requires
      var pins := env.library.components[libraryId].pins;
      pins[k].kind in BUS_TYPES && FirstOfRole(pins, k, pins[k].role)
    ensures
      var s, pins := Seeded(env, d, libraryId, hint).design, env.library.components[libraryId].pins;
      && |Solve(s, env.library).design.connections| == |d.connections| + |pins|
      && OnFirstBus(Solve(s, env.library).design.connections[|d.connections| + k].target, s.buses,
                    BUS_TYPES[pins[k].kind])
  {
    hide Inv, SeedsFresh, Seeded, Solve, StartsOn, ReadyToSolve, OnFirstBus, ResolvesTo, FirstOfRole, BoardOf;
    var s, entry, m := Seeded(env, d, libraryId, hint), env.library.components[libraryId], |d.connections| + k;
    SeededReady(env, d, libraryId, hint, k);
    RailsStay(s.design.connections[m].target, entry.pins[k], RailsOf(d, env.library), s.design.buses, entry);
    SeededShape(env, d, libraryId, hint);
    NewPinResolves(d, s.design, s.id, libraryId, env.library, k);
    SameBoard(d, s.design, env.library);
    SolverSettles(s.design, env.library, m, entry.pins[k]);
  }

  lemma SameBoard(d: Design, s: Design, library: Library)
    requires s.board == d.board
    ensures BoardOf(s, library) == BoardOf(d, library)
  {
  }

  lemma RailsStay(t: Target, pin: LibPin, rails: seq<PowerRail>, buses: seq<Bus>, entry: LibComponent)
    requires ReadyToSolve(t, pin, rails, buses, entry)
    ensures pin.kind in {"power", "ground", "passthrough"} ==> !Unbound(t) && StartsOn(t, pin, rails, buses, entry)
    ensures pin.kind in BUS_TYPES ==> t.OnBus? && (t == OnBus("") || OnFirstBus(t, buses, BUS_TYPES[pin.kind]))
  {
    PlainKinds();
  }

  // ----------------------------------------------------------- buses it brings

  ghost predicate Needs(pins: seq<LibPin>, kind: string)
  {
    exists p :: p in pins && p.kind in BUS_TYPES && BUS_TYPES[p.kind] == kind
  }

  /** `{kind}_n` for the first n no earlier bus holds, up to 999; after that `{kind}_{count}`. */
  ghost predicate NamedAmong(before: seq<Bus>, b: Bus)
  {
    || (exists n: nat :: 1 <= n <= 999 && b.id == Numbered(b.kind + "_", n) && b.id !in BusIdSet(before)
          && forall m: nat :: 1 <= m < n ==> Numbered(b.kind + "_", m) in BusIdSet(before))
    || (b.id == Numbered(b.kind + "_", |before|)
          && forall m: nat :: 1 <= m <= 999 ==> Numbered(b.kind + "_", m) in BusIdSet(before))
  }

  lemma NextIsNamed(before: seq<Bus>, kind: string, fields: map<string, string>)
    ensures NamedAmong(before, Bus(NextBusId(before, kind), kind, fields))
  {
    hide Numbered, BusIdSet;
    var n := FirstFree(kind + "_", BusIdSet(before), 1);
    assert IsFirstFree(kind + "_", BusIdSet(before), 1, n);
  }

  /** The board's default pins and settings for a type, where it has some. */
  ghost predicate OnDefaults(b: Bus, board: Board)
  {
    b.fields == if b.kind in board.defaultBuses then board.defaultBuses[b.kind] else map[]
  }

  lemma {:induction false} BusesAdded(buses: seq<Bus>, kinds: seq<string>, n: nat, board: Board)
    requires n <= |kinds|
    ensures
      var r := WithBuses(buses, kinds, n, board);
      && |r| == |buses| + n && r[..|buses|] == buses
      && forall j :: |buses| <= j < |r| ==>
           r[j].kind == kinds[j - |buses|] && OnDefaults(r[j], board) && NamedAmong(r[..j], r[j])
  {
    hide NextBusId, NamedAmong;
    if n > 0 {
      BusesAdded(buses, kinds, n - 1, board);
      var before, r := WithBuses(buses, kinds, n - 1, board), WithBuses(buses, kinds, n, board);
      NextIsNamed(before, kinds[n - 1], DefaultFields(board, kinds[n - 1]));
      assert r[..|before|] == before;
      forall j | |buses| <= j < |before| ensures r[j] == before[j] && r[..j] == before[..j] {
      }
    }
  }

  /** The buses that come with a part: on a known board one for each bus type its pins need and
      the design has no bus of, no type twice, on the board's default pins. */
  lemma BusesThatCome(env: Env, d: Design, libraryId: string, hint: string)
    requires libraryId in env.library.components && Enumerates(env.order)
    ensures
      var r, pins := AddWithConnections(env, d, libraryId, hint).design.buses, env.library.components[libraryId].pins;
      && |d.buses| <= |r| && r[..|d.buses|] == d.buses
      && (BoardOf(d, env.library).None? ==> r == d.buses)
      && (BoardOf(d, env.library).Some? ==>
            && (forall kind :: Needs(pins, kind) ==> exists b :: b in r && b.kind == kind)
            && (forall j :: |d.buses| <= j < |r| ==>
                  && Needs(pins, r[j].kind) && OnDefaults(r[j], BoardOf(d, env.library).value)
                  && NamedAmong(r[..j], r[j])
                  && forall i :: 0 <= i < j ==> r[i].kind != r[j].kind))
  {
    hide WithBuses, AddWithConnections, Appended, NeededBusTypes, BusKinds, Needs, NamedAmong, OnDefaults, Enumerates;
    var pins := env.library.components[libraryId].pins;
    var r := AddWithConnections(env, d, libraryId, hint).design.buses;
    AppendedBuses(env, d, libraryId, hint);
    if BoardOf(d, env.library).Some? {
      var kinds := env.order(NeededBusTypes(pins) - BusKinds(d.buses));
      NeededExactly(pins);
      BusesAdded(d.buses, kinds, |kinds|, BoardOf(d, env.library).value);
      ComesOnce(env.order, d.buses, kinds, r, NeededBusTypes(pins));
    }
  }

  lemma AppendedBuses(env: Env, d: Design, libraryId: string, hint: string)
    requires libraryId in env.library.components
    ensures
      var kinds := env.order(NeededBusTypes(env.library.components[libraryId].pins) - BusKinds(d.buses));
      AddWithConnections(env, d, libraryId, hint).design.buses
        == if BoardOf(d, env.library).None? then d.buses
           else WithBuses(d.buses, kinds, |kinds|, BoardOf(d, env.library).value)
  {
  }

  lemma NeededExactly(pins: seq<LibPin>)
    ensures forall kind :: kind in NeededBusTypes(pins) <==> Needs(pins, kind)
  {
    forall p | p in pins {
      BusTypesAgree(p.kind);
    }
    hide BusTypeForPin;
    forall kind | Needs(pins, kind) ensures kind in NeededBusTypes(pins) {
      var p :| p in pins && p.kind in BUS_TYPES && BUS_TYPES[p.kind] == kind;
      BusTypesAgree(p.kind);
    }
    forall kind | kind in NeededBusTypes(pins) ensures Needs(pins, kind) {
      var p :| p in pins && BusTypeForPin(p.kind).Some? && BusTypeForPin(p.kind).value == kind;
      BusTypesAgree(p.kind);
    }
  }

  lemma ComesOnce(order: set<string> -> seq<string>, buses: seq<Bus>, kinds: seq<string>,
                  r: seq<Bus>, needed: set<string>)
    requires Enumerates(order) && kinds == order(needed - BusKinds(buses))
    requires |r| == |buses| + |kinds| && r[..|buses|] == buses
    requires forall j :: |buses| <= j < |r| ==> r[j].kind == kinds[j - |buses|]
    ensures forall kind | kind in needed :: exists b :: b in r && b.kind == kind
    ensures forall j :: |buses| <= j < |r| ==> r[j].kind in needed && forall i :: 0 <= i < j ==> r[i].kind != r[j].kind
  {
    forall kind | kind in needed ensures exists b :: b in r && b.kind == kind {
      if kind in BusKinds(buses) {
        var b :| b in buses && b.kind == kind;
        assert b in r[..|buses|];
      } else {
        assert kind in kinds;
        var n :| 0 <= n < |kinds| && kinds[n] == kind;
        assert r[|buses| + n] in r;
      }
    }
    forall j | |buses| <= j < |r|
      ensures r[j].kind in needed && forall i :: 0 <= i < j ==> r[i].kind != r[j].kind
    {
      assert kinds[j - |buses|] in kinds;
      forall i | 0 <= i < j ensures r[i].kind != r[j].kind {
        if i < |buses| {
          assert r[..|buses|][i] in buses && r[i].kind in BusKinds(buses);
        }
      }
    }
  }

  predicate Given(b: Bus, slot: string)
  {
    slot in b.fields && b.fields[slot] != ""
  }

  /** The pins a bus of the type needs before a part can run on it. */
  predicate HasItsPins(b: Bus)
  {
    match b.kind
    case "i2c" => Given(b, "sda") && Given(b, "scl")
    case "spi" => Given(b, "clk") && (Given(b, "miso") || Given(b, "mosi"))
    case "uart" => Given(b, "rx") || Given(b, "tx")
    case "1wire" => Given(b, "pin")
    case "i2s" => Given(b, "lrclk") && Given(b, "bclk")
    case _ => true
  }

  lemma OneSlot(b: Bus, slot: string)
    ensures HasPin(b, {slot}) <==> Given(b, slot)
  {
    if Given(b, slot) {
      assert slot in {slot};
    }
  }

  lemma TwoSlots(b: Bus, x: string, y: string)
    ensures HasPin(b, {x, y}) <==> Given(b, x) || Given(b, y)
  {
    if Given(b, x) || Given(b, y) {
      assert x in {x, y} && y in {x, y};
    }
  }

  lemma OneGroup(b: Bus, g: set<string>)
    ensures (exists h :: h in [g] && !HasPin(b, h)) <==> !HasPin(b, g)
  {
    hide HasPin;
    assert [g][0] in [g];
  }

  lemma TwoGroups(b: Bus, g: set<string>, h: set<string>)
    ensures (exists k :: k in [g, h] && !HasPin(b, k)) <==> !HasPin(b, g) || !HasPin(b, h)
  {
    hide HasPin;
    assert [g, h][0] in [g, h] && [g, h][1] in [g, h];
  }

  lemma MissingPinsExactly(b: Bus)
    ensures MissingPins(b) <==> !HasItsPins(b)
  {
    hide HasPin, Given;
    match b.kind
    case "i2c" =>
      OneSlot(b, "sda"); OneSlot(b, "scl"); TwoGroups(b, {"sda"}, {"scl"});
      assert BUS_PIN_GROUPS["i2c"] == [{"sda"}, {"scl"}];
    case "spi" =>
      OneSlot(b, "clk"); TwoSlots(b, "miso", "mosi"); TwoGroups(b, {"clk"}, {"miso", "mosi"});
      assert BUS_PIN_GROUPS["spi"] == [{"clk"}, {"miso", "mosi"}];
    case "uart" =>
      TwoSlots(b, "rx", "tx"); OneGroup(b, {"rx", "tx"});
      assert BUS_PIN_GROUPS["uart"] == [{"rx", "tx"}];
    case "1wire" =>
      OneSlot(b, "pin"); OneGroup(b, {"pin"});
      assert BUS_PIN_GROUPS["1wire"] == [{"pin"}];
    case "i2s" =>
      OneSlot(b, "lrclk"); OneSlot(b, "bclk"); TwoGroups(b, {"lrclk"}, {"bclk"});
      assert BUS_PIN_GROUPS["i2s"] == [{"lrclk"}, {"bclk"}];
    case _ =>
      assert b.kind !in BUS_PIN_GROUPS;
  }

  /** Of those, the document keeps the ones that have their pins; nothing that was there goes. */
  lemma BusesThatStay(env: Env, d: Design, libraryId: string, hint: string, b: Bus)
    requires libraryId in env.library.components && Ready(env, d, libraryId)
    ensures
      b in AddKnown(env, d, libraryId, hint).design.buses
      <==> b in AddWithConnections(env, d, libraryId, hint).design.buses && (b in d.buses || HasItsPins(b))
  {
    hide Seeded, SeedsFresh, AddWithConnections, KeepBuses, EmptyBuses, HasItsPins, MissingPins;
    var a := AddWithConnections(env, d, libraryId, hint).design;
    AddKnownLists(env, d, libraryId, hint);
    SeededBuses(env, d, libraryId, hint);
    AddWithConnectionsKeeps(env, d, libraryId, hint);
    AddWithConnectionsShape(env, d, libraryId, hint);
    KeptIsOld(a.buses, EmptyBuses(BusIdSet(d.buses), a.buses), b);
    if b in a.buses {
      EmptyByItself(d.buses, a.buses, b);
    }
  }

  lemma SeededBuses(env: Env, d: Design, libraryId: string, hint: string)
    requires libraryId in env.library.components
    ensures
      var a := AddWithConnections(env, d, libraryId, hint).design;
      Seeded(env, d, libraryId, hint).design.buses == KeepBuses(a.buses, EmptyBuses(BusIdSet(d.buses), a.buses))
  {
    hide AddWithConnections, EmptyBuses, KeepBuses;
  }

  lemma EmptyByItself(before: seq<Bus>, buses: seq<Bus>, b: Bus)
    requires DistinctBuses(buses) && before <= buses && b in buses
    ensures b.id in EmptyBuses(BusIdSet(before), buses) <==> b !in before && !HasItsPins(b)
  {
    hide HasItsPins, MissingPins;
    MissingPinsExactly(b);
    forall other | other in buses && other.id == b.id ensures other == b {
    }
    assert buses[..|before|] == before;
  }

  // -------------------------------------------------------------- its new id

  /** The ASCII codes of digits, capitals and small letters. */
  predicate IsLetterOrDigit(c: char)
  {
    48 <= c as int <= 57 || 65 <= c as int <= 90 || 97 <= c as int <= 122
  }

  /** The library id with everything but letters and digits made an underscore. */
  predicate IsBaseOf(base: string, libraryId: string)
  {
    && |base| == |libraryId|
    && forall i :: 0 <= i < |base| ==> base[i] == if IsLetterOrDigit(libraryId[i]) then libraryId[i] else '_'
  }

  /** `{base}_n` for the first n that is unused. */
  ghost predicate FirstUnusedName(id: string, base: string, used: set<string>)
  {
    exists n: nat :: 1 <= n && id == Numbered(base + "_", n) && id !in used
      && forall m: nat :: 1 <= m < n ==> Numbered(base + "_", m) in used
  }

  /** A new part takes the id it is offered when that is free, else the first free numbered name
      of its library id, and when ESPHome refuses that id the first free number after it. */
  lemma NewIdExactly(env: Env, d: Design, libraryId: string, hint: string)
    requires libraryId in env.library.components
    ensures
      var a, first := AddWithConnections(env, d, libraryId, hint), Appended(env, d, libraryId, hint);
      var used := IdSet(d.components);
      && (hint != "" && hint !in used ==> first.id == hint)
      && (hint == "" || hint in used ==>
            exists base :: IsBaseOf(base, libraryId) && FirstUnusedName(first.id, base, used))
      && (if env.refuses(first.design, first.id) then FirstUnusedName(a.id, first.id, used) else a == first)
  {
    hide Numbered, PrepareBuses, Seeds, RenameInstance, BoardOf;
    var used := IdSet(d.components);
    var base := Sanitized(libraryId);
    assert IsFirstFree(base + "_", used, 1, FirstFree(base + "_", used, 1));
    assert IsBaseOf(base, libraryId);
    var id := Appended(env, d, libraryId, hint).id;
    assert IsFirstFree(id + "_", used, 1, FirstFree(id + "_", used, 1));
  }

  // ---------------------------------------------------------------- removing

  lemma {:induction false} KeptParts(components: seq<Component>, id: string, keep: seq<bool>, n: nat)
    requires n <= |components| == |keep| && forall i :: 0 <= i < n ==> keep[i] == (components[i].id != id)
    ensures
      var kept := KeepComponents(components[..n], id);
      |kept| == |Chosen(keep, n)| && forall k :: 0 <= k < |kept| ==> kept[k] == components[Chosen(keep, n)[k]]
  {
    if n > 0 {
      KeptParts(components, id, keep, n - 1);
      assert components[..n][..n - 1] == components[..n - 1];
    }
  }

  lemma {:induction false} KeptWires(connections: seq<Connection>, id: string, keep: seq<bool>, n: nat)
    requires n <= |connections| == |keep| && forall i :: 0 <= i < n ==> keep[i] == (connections[i].componentId != id)
    ensures
      var kept := KeepConnections(connections[..n], id);
      |kept| == |Chosen(keep, n)| && forall k :: 0 <= k < |kept| ==> kept[k] == connections[Chosen(keep, n)[k]]
  {
    if n > 0 {
      KeptWires(connections, id, keep, n - 1);
      assert connections[..n][..n - 1] == connections[..n - 1];
    }
  }

  lemma PartsLeft(components: seq<Component>, id: string) returns (at: seq<nat>)
    ensures Selects(components, KeepComponents(components, id), at)
    ensures forall i: nat :: i in at <==> i < |components| && components[i].id != id
  {
    hide KeepComponents, Chosen;
    var n := |components|;
    var keep := seq(n, i requires 0 <= i < n => components[i].id != id);
    at := Chosen(keep, n);
    KeptParts(components, id, keep, n);
    ChosenAscends(keep, n);
    assert components[..n] == components;
    forall i: nat ensures i in at <==> i < |components| && components[i].id != id {
      ChosenHas(keep, n, i);
    }
  }

  lemma WiresLeft(connections: seq<Connection>, id: string) returns (at: seq<nat>)
    ensures Selects(connections, KeepConnections(connections, id), at)
    ensures forall i: nat :: i in at <==> i < |connections| && connections[i].componentId != id
  {
    hide KeepConnections, Chosen;
    var n := |connections|;
    var keep := seq(n, i requires 0 <= i < n => connections[i].componentId != id);
    at := Chosen(keep, n);
    KeptWires(connections, id, keep, n);
    ChosenAscends(keep, n);
    assert connections[..n] == connections;
    forall i: nat ensures i in at <==> i < |connections| && connections[i].componentId != id {
      ChosenHas(keep, n, i);
    }
  }

  /** Removing a part is refused exactly when no part has the id. Otherwise exactly the parts
      with another id and the connections of another owner are left, in the order they were in
      and as often as they were there; board and buses stay. */
  lemma RemoveExactly(d: Design, id: string) returns (parts: seq<nat>, wires: seq<nat>)
    ensures RemoveComponent(d, id).None? <==> forall c | c in d.components :: c.id != id
    ensures RemoveComponent(d, id).Some? ==>
      var r := RemoveComponent(d, id).value;
      && r.board == d.board && r.buses == d.buses
      && Selects(d.components, r.components, parts)
      && (forall i: nat :: i in parts <==> i < |d.components| && d.components[i].id != id)
      && Selects(d.connections, r.connections, wires)
      && (forall i: nat :: i in wires <==> i < |d.connections| && d.connections[i].componentId != id)
  {
    hide KeepComponents, KeepConnections, Selects;
    parts := PartsLeft(d.components, id);
    wires := WiresLeft(d.connections, id);
  }

  // ------------------------------------------------------------- a new bus

  /** What a bus added by hand holds: the fields given, and the board's defaults of its type for
      the rest. */
  ghost predicate FilledIn(b: Bus, d: Design, library: Library, fields: map<string, string>)
  {
    var defaults: map<string, string> :=
      if BoardOf(d, library).Some? && b.kind != "" && b.kind in BoardOf(d, library).value.defaultBuses
      then BoardOf(d, library).value.defaultBuses[b.kind] else map[];
    && (forall slot :: slot in b.fields <==> slot in fields || slot in defaults)
    && (forall slot | slot in fields :: b.fields[slot] == fields[slot])
    && (forall slot | slot in defaults && slot !in fields :: b.fields[slot] == defaults[slot])
  }

  predicate RunsOn(b: Bus, slot: string, pin: string)
  {
    slot in BUS_PIN_SLOTS && slot in b.fields && b.fields[slot] == pin && pin != ""
  }

  /** Some pin slot of one holds the pin some pin slot of the other holds. */
  ghost predicate SharePin(a: Bus, b: Bus)
  {
    exists x, y, pin :: RunsOn(a, x, pin) && RunsOn(b, y, pin)
  }

  lemma PinsMeet(a: Bus, b: Bus)
    ensures PinsOf(a.fields) * PinsOf(b.fields) != {} <==> SharePin(a, b)
  {
    if pin :| pin in PinsOf(a.fields) * PinsOf(b.fields) {
      var x :| x in BUS_PIN_SLOTS && x in a.fields && a.fields[x] != "" && a.fields[x] == pin;
      var y :| y in BUS_PIN_SLOTS && y in b.fields && b.fields[y] != "" && b.fields[y] == pin;
      assert RunsOn(a, x, pin) && RunsOn(b, y, pin);
    }
    if x, y, pin :| RunsOn(a, x, pin) && RunsOn(b, y, pin) {
      assert a.fields[x] in PinsOf(a.fields) && b.fields[y] in PinsOf(b.fields);
      assert pin in PinsOf(a.fields) * PinsOf(b.fields);
    }
  }

  /** A bus added by hand: there is one bus it could be; it is refused exactly when its id is
      reserved or taken or it shares a pin with a bus there is, and otherwise comes last. */
  lemma NewBusExactly(d: Design, library: Library, id: string, kind: string, fields: map<string, string>)
    returns (b: Bus)
    ensures b.id == id && b.kind == kind && FilledIn(b, d, library, fields)
    ensures AddBusTo(d, library, id, kind, fields)
         == if id in {"uart0", "uart1", "uart2", "spi0", "spi1"} || (exists x :: x in d.buses && x.id == id)
               || (exists x :: x in d.buses && SharePin(x, b))
            then None else Some(Design(d.board, d.components, d.buses + [b], d.connections))
  {
    var board := BoardOf(d, library);
    var defaults: map<string, string> :=
      if board.Some? && kind != "" then DefaultFields(board.value, kind) else map[];
    b := Bus(id, kind, defaults + fields);
    assert FilledIn(b, d, library, fields);
    hide SharePin, PinsOf, BoardOf;
    forall x | x in d.buses ensures PinsOf(x.fields) * PinsOf(b.fields) != {} <==> SharePin(x, b) {
      PinsMeet(x, b);
    }
  }

  // -------------------------------------------------------- inserting a module

  lemma {:induction false} StampOnlyLast(components: seq<Component>, c: Component, m: ModuleRef)
    requires forall x | x in components :: x.id != c.id
    ensures Stamp(components + [c], c.id, m) == components + [c.(part := Some(m))]
  {
    if components == [] {
      assert [] + [c] == [c];
    } else {
      StampOnlyLast(components[1..], c, m);
      assert (components + [c])[1..] == components[1..] + [c] && components[0] in components;
      assert components == [components[0]] + components[1..];
    }
  }

  lemma NewPartIsLast(env: Env, d: Design, libraryId: string, hint: string)
    requires libraryId in env.library.components
    ensures
      var a := AddWithConnections(env, d, libraryId, hint);
      a.design.components == d.components + [Component(a.id, libraryId, [], None)] && a.id !in IdSet(d.components)
  {
    hide PrepareBuses, Seeds, BoardOf, InstanceId, SuffixedId;
    var first := Appended(env, d, libraryId, hint);
    forall i | 0 <= i < |d.components| ensures d.components[i].id != first.id {
      assert d.components[i] in d.components && d.components[i].id in IdSet(d.components);
    }
  }

  /** One part of a module: added as by hand, and the new component alone carries the mark. */
  lemma InsertPartExactly(env: Env, d: Design, part: ModulePart, m: ModuleRef)
    ensures part.libraryId !in env.library.components ==> InsertPart(env, d, part, m) == (d, false)
    ensures part.libraryId in env.library.components ==>
      var a := AddWithConnections(env, d, part.libraryId, part.hint);
      InsertPart(env, d, part, m) == (a.design.(
        components := d.components + [Component(a.id, part.libraryId, [], Some(m))]), true)
  {
    hide AddWithConnections, Stamp;
    if part.libraryId in env.library.components {
      NewPartIsLast(env, d, part.libraryId, part.hint);
      var a := AddWithConnections(env, d, part.libraryId, part.hint);
      forall x | x in d.components ensures x.id != a.id {
        assert x.id in IdSet(d.components);
      }
      StampOnlyLast(d.components, Component(a.id, part.libraryId, [], None), m);
    }
  }

  /** Insertion stops at the first part the library lacks and keeps the parts before it. */
  lemma {:induction false} InsertStopsAt(env: Env, d: Design, parts: seq<ModulePart>, n: nat, k: nat, m: ModuleRef)
    requires k < n <= |parts| && parts[k].libraryId !in env.library.components
    requires forall i :: 0 <= i < k ==> parts[i].libraryId in env.library.components
    ensures InsertParts(env, d, parts, n, m) == (InsertParts(env, d, parts, k, m).0, false)
    ensures InsertParts(env, d, parts, k, m).1
  {
    hide AddWithConnections, Stamp;
    if n > k + 1 {
      InsertStopsAt(env, d, parts, n - 1, k, m);
    } else {
      InsertsAll(env, d, parts, k, m);
    }
  }

  lemma {:induction false} InsertsAll(env: Env, d: Design, parts: seq<ModulePart>, n: nat, m: ModuleRef)
    requires n <= |parts| && forall i :: 0 <= i < n ==> parts[i].libraryId in env.library.components
    ensures InsertParts(env, d, parts, n, m).1
  {
    hide AddWithConnections, Stamp;
    if n > 0 {
      InsertsAll(env, d, parts, n - 1, m);
    }
  }

  // ---------------------------------------------------------- edits in a run

  /** What one edit of a run leaves: the document as it was when it is refused, exactly when it
      must be, and what its handler makes of it otherwise. */
  lemma EditsExactly(env: Env, d: Design, e: Edit)
    ensures e.Add? && e.libraryId !in env.library.components ==>
      AddComponent(env, d, e.libraryId, e.hint) == None && Apply(env, d, e) == d
    ensures e.Add? && e.libraryId in env.library.components ==>
      && AddComponent(env, d, e.libraryId, e.hint) == Some(AddKnown(env, d, e.libraryId, e.hint))
      && Apply(env, d, e) == AddKnown(env, d, e.libraryId, e.hint).design
    ensures e.Insert? ==> Apply(env, d, e) == InsertParts(env, d, e.parts, |e.parts|, e.moduleRef).0
    ensures e.Remove? && !HasPart(d, e.id) ==> Apply(env, d, e) == d
    ensures e.Remove? && HasPart(d, e.id) ==> RemoveComponent(d, e.id) == Some(Apply(env, d, e))
    ensures e.NewBus? && AddBusTo(d, env.library, e.id, e.kind, e.fields).None? ==> Apply(env, d, e) == d
    ensures e.NewBus? && AddBusTo(d, env.library, e.id, e.kind, e.fields).Some? ==>
      AddBusTo(d, env.library, e.id, e.kind, e.fields) == Some(Apply(env, d, e))
    ensures e.SolveAll? ==> Apply(env, d, e) == Solve(d, env.library).design
  {
    hide AddKnown, InsertParts, Solve, KeepComponents, KeepConnections;
  }

  ghost predicate HasPart(d: Design, id: string)
  {
    exists c :: c in d.components && c.id == id
  }

  /** A run of edits is the edits one after the other. */
  lemma {:induction false} RunsInOrder(env: Env, d: Design, first: seq<Edit>, then_: seq<Edit>)
    ensures Run(env, d, first + then_) == Run(env, Run(env, d, first), then_)
    ensures forall e :: Run(env, d, [e]) == Apply(env, d, e)
    decreases |then_|
  {
    hide Apply;
    forall e ensures Run(env, d, [e]) == Apply(env, d, e) {
      assert [e][..0] == [];
    }
    if then_ == [] {
      assert first + then_ == first;
    } else {
      var last := |then_| - 1;
      RunsInOrder(env, d, first, then_[..last]);
      assert (first + then_)[..|first + then_| - 1] == first + then_[..last];
    }
  }
}
