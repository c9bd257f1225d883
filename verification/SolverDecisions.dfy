/** What the solver does with each kind of connection, told from the design and the library
    alone (wirestudio/csp/pin_solver.py:254-369, 477-510). */
module SolverDecisions {
  import opened Options
  import opened Text
  import opened DesignModel
  import opened PinCandidates
  import opened PinSolver
  import opened SolverTrace
  import opened SolverSafety

  // -------------------------------------------------------------- resolution

  /** The entry a dict of components by id keeps for the id: the last one with it. */
  predicate LastEntry(components: seq<Component>, m: int, id: string)
  {
    0 <= m < |components| && components[m].id == id && forall j :: m < j < |components| ==> components[j].id != id
  }

  /** The pin a scan for the role stops at: the first one with it. */
  predicate FirstOfRole(pins: seq<LibPin>, k: int, role: string)
  {
    0 <= k < |pins| && pins[k].role == role && forall j :: 0 <= j < k ==> pins[j].role != role
  }

  /** The id names an instance of the library component. */
  ghost predicate InstanceOf(components: seq<Component>, id: string, libraryId: string)
  {
    exists m :: LastEntry(components, m, id) && components[m].libraryId == libraryId
  }

  /** The connection's component, its library entry and its role resolve, to this pin. */
  ghost predicate ResolvesTo(d: Design, library: Library, c: Connection, pin: LibPin)
  {
    exists libraryId, k :: InstanceOf(d.components, c.componentId, libraryId) && libraryId in library.components
      && FirstOfRole(library.components[libraryId].pins, k, c.role) && library.components[libraryId].pins[k] == pin
  }

  lemma LastStill(components: seq<Component>, m: int, id: string)
    requires components != [] && components[|components| - 1].id != id
    ensures LastEntry(components, m, id) <==> LastEntry(components[..|components| - 1], m, id)
  {
  }

  lemma LastIsLast(components: seq<Component>)
    requires components != []
    ensures LastEntry(components, |components| - 1, components[|components| - 1].id)
  {
  }

  lemma {:induction false} FoundIsLast(components: seq<Component>, id: string)
    ensures FindComponent(components, id).Some? ==>
      exists m :: LastEntry(components, m, id) && components[m] == FindComponent(components, id).value
    ensures FindComponent(components, id).None? ==> forall m :: !LastEntry(components, m, id)
  {
    if components != [] {
      var last, rest := |components| - 1, components[..|components| - 1];
      if components[last].id == id {
        LastIsLast(components);
      } else {
        FoundIsLast(rest, id);
        forall m ensures LastEntry(components, m, id) <==> LastEntry(rest, m, id) {
          LastStill(components, m, id);
        }
      }
    }
  }

  lemma OneLastEntry(components: seq<Component>, m: int, n: int, id: string)
    requires LastEntry(components, m, id) && LastEntry(components, n, id)
    ensures m == n
  {
  }

  lemma InstanceIsFound(components: seq<Component>, id: string, libraryId: string)
    ensures InstanceOf(components, id, libraryId) <==>
      FindComponent(components, id).Some? && FindComponent(components, id).value.libraryId == libraryId
  {
    FoundIsLast(components, id);
    if InstanceOf(components, id, libraryId) {
      var m :| LastEntry(components, m, id) && components[m].libraryId == libraryId;
      var n :| LastEntry(components, n, id) && components[n] == FindComponent(components, id).value;
      OneLastEntry(components, m, n, id);
    }
  }

  lemma {:induction false} RoleIsFirst(pins: seq<LibPin>, role: string)
    ensures FindRole(pins, role).Some? ==>
      exists k :: FirstOfRole(pins, k, role) && pins[k] == FindRole(pins, role).value
    ensures FindRole(pins, role).None? ==> forall k :: !FirstOfRole(pins, k, role)
  {
    if pins != [] {
      if pins[0].role == role {
        assert FirstOfRole(pins, 0, role);
      } else {
        RoleIsFirst(pins[1..], role);
        if FindRole(pins[1..], role).Some? {
          var k :| FirstOfRole(pins[1..], k, role) && pins[1..][k] == FindRole(pins[1..], role).value;
          assert pins[k + 1] == pins[1..][k];
          forall j | 0 <= j < k + 1 ensures pins[j].role != role {
            assert j > 0 ==> pins[j] == pins[1..][j - 1];
          }
          assert FirstOfRole(pins, k + 1, role);
        }
      }
    }
  }

  lemma PinIsResolved(d: Design, library: Library, c: Connection, pin: LibPin)
    ensures ResolvesTo(d, library, c, pin) <==> PinOf(library, d.components, c) == Some(pin)
  {
    hide FindRole, FindComponent;
    forall libraryId {
      InstanceIsFound(d.components, c.componentId, libraryId);
    }
    forall libraryId | libraryId in library.components {
      RoleIsFirst(library.components[libraryId].pins, c.role);
    }
  }

  lemma PinIsReached(d: Design, library: Library, board: Board, c: Connection, pin: LibPin)
    requires ResolvesTo(d, library, c, pin)
    ensures
      var ctx := ContextOf(d, library, board);
      ComponentWithPin(ctx, c).Leave? && LibPinOf(ctx, c) == pin
  {
    hide InstanceOf, FirstOfRole;
    PinIsResolved(d, library, c, pin);
  }

  // ------------------------------------------------------------- hub parents

  /** The id names an instance of the wanted component other than the part itself. */
  ghost predicate CanParent(components: seq<Component>, id: string, wanted: string, self: string)
  {
    id != self && InstanceOf(components, id, wanted)
  }

  /** Its first mention in the design, in the order of the dict of components. */
  ghost predicate FirstParentAt(components: seq<Component>, k: int, wanted: string, self: string)
  {
    && 0 <= k < |components| && CanParent(components, components[k].id, wanted, self)
    && forall j :: 0 <= j < k ==> !CanParent(components, components[j].id, wanted, self)
  }

  lemma {:induction false} ParentOfMore(ctx: Context, ids: seq<string>, id: string, wanted: string, self: string)
    ensures ctx.FirstParent(ids + [id], wanted, self)
         == if ctx.FirstParent(ids, wanted, self).Some? then ctx.FirstParent(ids, wanted, self)
            else if CanParent(ctx.components, id, wanted, self) then Some(id) else None
  {
    if ids == [] {
      InstanceIsFound(ctx.components, id, wanted);
      assert ([] + [id])[1..] == [];
    } else {
      ParentOfMore(ctx, ids[1..], id, wanted, self);
      assert (ids + [id])[1..] == ids[1..] + [id];
    }
  }

  /** What a scan of the first n components' ids has found. */
  ghost predicate Scanned(components: seq<Component>, n: nat, wanted: string, self: string, parent: Option<string>)
    requires n <= |components|
  {
    match parent
    case None => forall j :: 0 <= j < n ==> !CanParent(components, components[j].id, wanted, self)
    case Some(id) => exists k :: FirstParentAt(components, k, wanted, self) && components[k].id == id
  }

  lemma ScanOneMore(components: seq<Component>, n: nat, wanted: string, self: string, parent: Option<string>)
    requires n < |components| && Scanned(components, n, wanted, self, parent)
    ensures
      var id := components[n].id;
      Scanned(components, n + 1, wanted, self,
              if parent.Some? then parent else if CanParent(components, id, wanted, self) then Some(id) else None)
  {
    hide CanParent;
    if parent.None? && CanParent(components, components[n].id, wanted, self) {
      assert FirstParentAt(components, n, wanted, self);
    }
  }

  lemma ScanRepeated(components: seq<Component>, n: nat, wanted: string, self: string, parent: Option<string>)
    requires n < |components| && Scanned(components, n, wanted, self, parent)
    requires components[n].id in ComponentIds(components[..n])
    ensures Scanned(components, n + 1, wanted, self, parent)
  {
    hide CanParent, FirstParentAt;
    var c :| c in components[..n] && c.id == components[n].id;
    var j :| 0 <= j < n && components[j] == c;
  }

  lemma NothingScanned(ctx: Context, wanted: string, self: string)
    ensures Scanned(ctx.components, 0, wanted, self,
                    ctx.FirstParent(ComponentIds(ctx.components[..0]), wanted, self))
  {
    assert ComponentIds(ctx.components[..0]) == [];
  }

  lemma IdsOneMore(components: seq<Component>, n: nat)
    requires n < |components|
    ensures
      var ids, id := ComponentIds(components[..n]), components[n].id;
      ComponentIds(components[..n + 1]) == if id in ids then ids else ids + [id]
  {
    assert components[..n + 1][..n] == components[..n];
  }

  /** Scanning the dict's ids stops at the component first mentioned that can be the parent. */
  lemma {:induction false} ParentScan(ctx: Context, n: nat, wanted: string, self: string)
    requires n <= |ctx.components|
    ensures Scanned(ctx.components, n, wanted, self,
                    ctx.FirstParent(ComponentIds(ctx.components[..n]), wanted, self))
  {
    hide *;
    if n == 0 {
      NothingScanned(ctx, wanted, self);
    } else {
      ParentScan(ctx, n - 1, wanted, self);
      IdsOneMore(ctx.components, n - 1);
      var ids, id := ComponentIds(ctx.components[..n - 1]), ctx.components[n - 1].id;
      var parent := ctx.FirstParent(ids, wanted, self);
      if id in ids {
        ScanRepeated(ctx.components, n - 1, wanted, self, parent);
      } else {
        ParentOfMore(ctx, ids, id, wanted, self);
        ScanOneMore(ctx.components, n - 1, wanted, self, parent);
      }
    }
  }

  /** A pin on another component ends on the first component of the dict that is an instance of
      the pin's parent and not the part itself; it is left alone when there is none, and reads
      as unbound then, or when that component's id is empty. */
  lemma ParentExactly(d: Design, library: Library, board: Board, i: nat, pin: LibPin)
    requires BoardOf(d, library) == Some(board) && i < |d.connections|
    requires d.connections[i].target == OnComponent("") && ResolvesTo(d, library, d.connections[i], pin)
    requires pin.parentLibraryId.Some? && pin.parentLibraryId.value != ""
    ensures
      var c, wanted := d.connections[i], pin.parentLibraryId.value;
      var out := Solve(d, library).design.connections;
      && |out| == |d.connections|
      && (forall k :: FirstParentAt(d.components, k, wanted, c.componentId) ==>
            out[i] == c.(target := OnComponent(d.components[k].id)))
      && ((forall k :: !FirstParentAt(d.components, k, wanted, c.componentId)) ==> out[i] == c)
      && (Unbound(out[i].target) <==>
            forall k :: FirstParentAt(d.components, k, wanted, c.componentId) ==> d.components[k].id == "")
  {
    var ctx, c, wanted := ContextOf(d, library, board), d.connections[i], pin.parentLibraryId.value;
    SolvedConnection(d, library, board, i);
    PinIsReached(d, library, board, c, pin);
    ParentScan(ctx, |d.components|, wanted, c.componentId);
    assert d.components[..|d.components|] == d.components;
    assert Choice(ctx, Locked(d, ctx), i) == DecideParent(ctx, pin, c.componentId);
    hide FirstParentAt, Locked, Choice, ComponentWithPin;
    OneFirstParent(d.components, wanted, c.componentId);
  }

  lemma OneFirstParent(components: seq<Component>, wanted: string, self: string)
    ensures forall j, k ::
      FirstParentAt(components, j, wanted, self) && FirstParentAt(components, k, wanted, self) ==> j == k
    ensures (forall k :: !FirstParentAt(components, k, wanted, self))
       <==> forall j :: 0 <= j < |components| ==> !CanParent(components, components[j].id, wanted, self)
  {
    hide CanParent;
    if n: nat :| n < |components| && CanParent(components, components[n].id, wanted, self) {
      SomeFirstParent(components, wanted, self, n);
    }
  }

  lemma {:induction false} SomeFirstParent(components: seq<Component>, wanted: string, self: string, n: nat)
    requires n < |components| && CanParent(components, components[n].id, wanted, self)
    ensures exists k :: FirstParentAt(components, k, wanted, self)
  {
    hide CanParent;
    if m: nat :| m < n && CanParent(components, components[m].id, wanted, self) {
      SomeFirstParent(components, wanted, self, m);
    } else {
      assert FirstParentAt(components, n, wanted, self);
    }
  }

  // ------------------------------------------------------------------- buses

  /** `_BUS_KIND_TO_TYPE`, the seeding's own copy of the solver's table. */
  const BUS_TYPES := map[
    "i2c_sda" := "i2c", "i2c_scl" := "i2c",
    "spi_clk" := "spi", "spi_miso" := "spi", "spi_mosi" := "spi",
    "i2s_lrclk" := "i2s", "i2s_bclk" := "i2s",
    "uart_rx" := "uart", "uart_tx" := "uart",
    "onewire_data" := "1wire"]

  /** The two copies agree. */
  lemma BusTypesAgree(kind: string)
    ensures BusTypeForPin(kind) == if kind in BUS_TYPES then Some(BUS_TYPES[kind]) else None
  {
  }

  predicate FirstBusAt(buses: seq<Bus>, k: int, kind: string)
  {
    0 <= k < |buses| && buses[k].kind == kind && forall j :: 0 <= j < k ==> buses[j].kind != kind
  }

  lemma {:induction false} BusIsFirst(buses: seq<Bus>, kind: string)
    ensures forall k :: FirstBusAt(buses, k, kind) ==> FirstBus(buses, kind) == Some(buses[k].id)
    ensures (forall k :: !FirstBusAt(buses, k, kind)) <==> FirstBus(buses, kind).None?
  {
    if buses != [] {
      BusIsFirst(buses[1..], kind);
      if buses[0].kind == kind {
        assert FirstBusAt(buses, 0, kind);
      } else {
        forall k | FirstBusAt(buses, k, kind) ensures FirstBusAt(buses[1..], k - 1, kind) {
        }
        forall k | FirstBusAt(buses[1..], k, kind) ensures FirstBusAt(buses, k + 1, kind) {
          assert buses[k + 1] == buses[1..][k];
          forall j | 0 <= j < k + 1 ensures buses[j].kind != kind {
            assert j > 0 ==> buses[j] == buses[1..][j - 1];
          }
        }
      }
    }
  }

  /** A bus pin ends on the first bus of its kind's type, and is left alone when the kind has
      no type or the design no such bus. */
  lemma BusExactly(d: Design, library: Library, board: Board, i: nat, pin: LibPin)
    requires BoardOf(d, library) == Some(board) && i < |d.connections|
    requires d.connections[i].target == OnBus("") && ResolvesTo(d, library, d.connections[i], pin)
    ensures
      var c, out := d.connections[i], Solve(d, library).design.connections;
      && |out| == |d.connections|
      && (pin.kind !in BUS_TYPES ==> out[i] == c)
      && (pin.kind in BUS_TYPES ==>
            && (forall k :: FirstBusAt(d.buses, k, BUS_TYPES[pin.kind]) ==>
                  out[i] == c.(target := OnBus(d.buses[k].id)))
            && ((forall k :: !FirstBusAt(d.buses, k, BUS_TYPES[pin.kind])) ==> out[i] == c))
  {
    var ctx, c := ContextOf(d, library, board), d.connections[i];
    SolvedConnection(d, library, board, i);
    PinIsReached(d, library, board, c, pin);
    BusTypesAgree(pin.kind);
    assert Choice(ctx, Locked(d, ctx), i) == DecideBus(ctx, pin);
    hide Locked, Choice, ComponentWithPin, BusTypeForPin, FirstBusAt;
    if pin.kind in BUS_TYPES {
      BusIsFirst(d.buses, BUS_TYPES[pin.kind]);
    }
  }

  // ------------------------------------------------------------------- locks

  /** The lock a component's own list holds for the role. */
  predicate FirstLockAt(locks: seq<Lock>, k: int, role: string)
  {
    0 <= k < |locks| && locks[k].role == role && forall j :: 0 <= j < k ==> locks[j].role != role
  }

  lemma {:induction false} LockIsFirst(locks: seq<Lock>, role: string)
    ensures forall k :: FirstLockAt(locks, k, role) ==> FindLock(locks, role) == Some(locks[k].pin)
    ensures (forall k :: !FirstLockAt(locks, k, role)) <==> FindLock(locks, role).None?
  {
    if locks != [] {
      LockIsFirst(locks[1..], role);
      if locks[0].role == role {
        assert FirstLockAt(locks, 0, role);
      } else {
        forall k | FirstLockAt(locks, k, role) ensures FirstLockAt(locks[1..], k - 1, role) {
        }
        forall k | FirstLockAt(locks[1..], k, role) ensures FirstLockAt(locks, k + 1, role) {
          assert locks[k + 1] == locks[1..][k];
          forall j | 0 <= j < k + 1 ensures locks[j].role != role {
            assert j > 0 ==> locks[j] == locks[1..][j - 1];
          }
        }
      }
    }
  }

  /** A gpio pin with no target ends on the pin its component locks its role to. */
  lemma LockExactly(d: Design, library: Library, board: Board, i: nat, m: int, k: int)
    requires BoardOf(d, library) == Some(board) && i < |d.connections| && d.connections[i].target == Gpio("")
    requires LastEntry(d.components, m, d.connections[i].componentId)
    requires FirstLockAt(d.components[m].locks, k, d.connections[i].role) && d.components[m].locks[k].pin != ""
    ensures
      var out := Solve(d, library).design.connections;
      |out| == |d.connections| && out[i] == d.connections[i].(target := Gpio(d.components[m].locks[k].pin))
  {
    var ctx, c := ContextOf(d, library, board), d.connections[i];
    SolvedConnection(d, library, board, i);
    FoundIsLast(d.components, c.componentId);
    var n :| LastEntry(d.components, n, c.componentId)
      && d.components[n] == FindComponent(d.components, c.componentId).value;
    OneLastEntry(d.components, m, n, c.componentId);
    LockIsFirst(d.components[m].locks, c.role);
  }

  // -------------------------------------------------------------- board pins

  /** The board pin has the capability the library pin's kind asks for, and none that rules the
      library pin out. */
  predicate CanTake(entry: BoardPin, pin: LibPin)
  {
    && (if pin.kind == "analog_in" then "adc" in entry.caps else "gpio" in entry.caps)
    && (pin.kind in {"digital_out", "i2s_dout"} ==> "input_only" !in entry.caps)
    && (pin.requiresPwm ==> "no_pwm" !in entry.caps)
    && (pin.requiresInterrupt ==> "no_interrupt" !in entry.caps)
    && (pin.requiresFastGpio ==> "no_fast_gpio" !in entry.caps)
  }

  predicate HasDuty(entry: BoardPin)
  {
    || "boot" in entry.caps || "strap" in entry.caps || "builtin_led" in entry.caps
    || "boot_high" in entry.caps || "boot_low" in entry.caps
    || "serial_tx" in entry.caps || "serial_rx" in entry.caps
  }

  predicate LacksPwm(entry: BoardPin, pin: LibPin)
  {
    pin.requiresPwm && "pwm" !in entry.caps
  }

  predicate OnAdc2(chip: string, entry: BoardPin, pin: LibPin)
  {
    pin.kind == "analog_in" && chip == "esp32" && "adc2" in entry.caps
  }

  /** Pins with no boot, strap, LED or console duty first, then pins with PWM where it is asked
      for, then pins off ADC2 where that matters, then by name. */
  predicate Preferred(chip: string, pin: LibPin, a: BoardPin, b: BoardPin)
  {
    if HasDuty(a) != HasDuty(b) then HasDuty(b)
    else if LacksPwm(a, pin) != LacksPwm(b, pin) then LacksPwm(b, pin)
    else if OnAdc2(chip, a, pin) != OnAdc2(chip, b, pin) then OnAdc2(chip, b, pin)
    else StrLeq(a.name, b.name)
  }

  lemma EligibleExactly(entry: BoardPin, pin: LibPin)
    ensures Eligible(pin, entry.caps) <==> CanTake(entry, pin)
  {
    assert "adc" in {"adc"} && "gpio" in {"gpio"};
    assert RequiredCaps(pin.kind) <= entry.caps <==>
      if pin.kind == "analog_in" then "adc" in entry.caps else "gpio" in entry.caps;
  }

  lemma PreferredExactly(chip: string, pin: LibPin, a: BoardPin, b: BoardPin)
    ensures KeyLeq(KeyOf(chip, pin, a), KeyOf(chip, pin, b)) <==> Preferred(chip, pin, a, b)
  {
    DutyExactly(a);
    DutyExactly(b);
    hide HasDuty, StrLeq;
  }

  lemma DutyExactly(entry: BoardPin)
    ensures entry.caps * SPECIAL != {} <==> HasDuty(entry)
  {
    if cap :| cap in entry.caps * SPECIAL {
      assert HasDuty(entry);
    }
    if HasDuty(entry) {
      forall cap | cap in SPECIAL && cap in entry.caps ensures cap in entry.caps * SPECIAL {
      }
    }
  }

  /** Entry k of the board's table is free and preferred to every other free entry that can
      take the pin. */
  ghost predicate BestFree(board: Board, pin: LibPin, used: set<string>, k: int)
  {
    && 0 <= k < |board.gpio| && CanTake(board.gpio[k], pin) && board.gpio[k].name !in used
    && forall j :: 0 <= j < |board.gpio| && CanTake(board.gpio[j], pin) && board.gpio[j].name !in used ==>
         Preferred(board.chipVariant, pin, board.gpio[k], board.gpio[j])
  }

  lemma PickIsBest(board: Board, pin: LibPin, used: set<string>)
    ensures
      match SolveGpio(board, pin, used)
      case None => forall k :: 0 <= k < |board.gpio| && CanTake(board.gpio[k], pin) ==> board.gpio[k].name in used
      case Some(p) => exists k :: BestFree(board, pin, used, k) && board.gpio[k].name == p
  {
    hide SolveGpio, Eligible, CanTake, KeyLeq, KeyOf, Preferred;
    PickIsLeastUnused(board, pin, used);
    forall j | 0 <= j < |board.gpio| ensures Eligible(pin, board.gpio[j].caps) <==> CanTake(board.gpio[j], pin) {
      EligibleExactly(board.gpio[j], pin);
    }
    forall j | 0 <= j < |board.gpio| && CanTake(board.gpio[j], pin) ensures CanServe(board, pin, board.gpio[j].name) {
      assert Eligible(pin, board.gpio[j].caps);
    }
    if SolveGpio(board, pin, used).Some? {
      BestOfBoard(board, pin, used, SolveGpio(board, pin, used).value);
    }
  }

  lemma BestOfBoard(board: Board, pin: LibPin, used: set<string>, p: string)
    requires CanServe(board, pin, p) && p !in used
    requires forall name | CanServe(board, pin, name) && name !in used ::
      KeyLeq(KeyNamed(board, pin, p), KeyNamed(board, pin, name))
    ensures exists k :: BestFree(board, pin, used, k) && board.gpio[k].name == p
  {
    hide Eligible, CanTake, KeyLeq, KeyOf, Preferred, CapsOf;
    var k :| 0 <= k < |board.gpio| && board.gpio[k].name == p && Eligible(pin, board.gpio[k].caps);
    EligibleExactly(board.gpio[k], pin);
    CapsOfEntry(board.gpio, k);
    forall j | 0 <= j < |board.gpio| && CanTake(board.gpio[j], pin) && board.gpio[j].name !in used
      ensures Preferred(board.chipVariant, pin, board.gpio[k], board.gpio[j])
    {
      EligibleExactly(board.gpio[j], pin);
      assert CanServe(board, pin, board.gpio[j].name);
      CapsOfEntry(board.gpio, j);
      PreferredExactly(board.chipVariant, pin, board.gpio[k], board.gpio[j]);
    }
    assert BestFree(board, pin, used, k);
  }

  lemma OneBest(board: Board, pin: LibPin, used: set<string>, j: int, k: int)
    requires BestFree(board, pin, used, j) && BestFree(board, pin, used, k)
    ensures board.gpio[j].name == board.gpio[k].name
  {
    hide CanTake, HasDuty, LacksPwm, OnAdc2, StrLeq;
    StrLeqTotal(board.gpio[j].name, board.gpio[k].name);
    if StrLeq(board.gpio[j].name, board.gpio[k].name) && StrLeq(board.gpio[k].name, board.gpio[j].name) {
      StrLeqAntisymmetric(board.gpio[j].name, board.gpio[k].name);
    }
  }

  lemma BestIsPicked(board: Board, pin: LibPin, used: set<string>)
    ensures forall k :: BestFree(board, pin, used, k) ==> SolveGpio(board, pin, used) == Some(board.gpio[k].name)
    ensures (forall k :: !BestFree(board, pin, used, k)) ==> SolveGpio(board, pin, used) == None
  {
    hide CanTake, Preferred, SolveGpio;
    PickIsBest(board, pin, used);
    forall k | BestFree(board, pin, used, k) ensures SolveGpio(board, pin, used) == Some(board.gpio[k].name) {
      if SolveGpio(board, pin, used).Some? {
        var j :| BestFree(board, pin, used, j) && board.gpio[j].name == SolveGpio(board, pin, used).value;
        OneBest(board, pin, used, j, k);
      }
    }
  }

  /** The connection has the best free pin for its target, or is as it was when there is none. */
  ghost predicate OnBestFree(c: Connection, out: Connection, board: Board, pin: LibPin, used: set<string>)
  {
    && ((forall k :: !BestFree(board, pin, used, k)) ==> out == c)
    && (forall k :: BestFree(board, pin, used, k) ==> out == c.(target := Gpio(board.gpio[k].name)))
  }

  /** A gpio pin with no target and no lock ends on the best board pin that is free when its
      turn comes; it is left alone when none is, and when the best one has no name. */
  lemma GpioExactly(d: Design, library: Library, board: Board, i: nat, pin: LibPin)
    requires BoardOf(d, library) == Some(board) && i < |d.connections| && d.connections[i].target == Gpio("")
    requires ResolvesTo(d, library, d.connections[i], pin)
    requires forall m, k :: LastEntry(d.components, m, d.connections[i].componentId) ==>
      !FirstLockAt(d.components[m].locks, k, d.connections[i].role)
    ensures
      var ctx, c, out := ContextOf(d, library, board), d.connections[i], Solve(d, library).design.connections;
      var used := After(ctx, Locked(d, ctx), i).used;
      && |out| == |d.connections|
      && OnBestFree(c, out[i], board, pin, used)
  {
    hide CanTake, Preferred, Locked, FindLock, FirstLockAt, LastEntry, SolveGpio, ComponentWithPin, ResolvesTo;
    var ctx, c := ContextOf(d, library, board), d.connections[i];
    var used := After(ctx, Locked(d, ctx), i).used;
    SolvedConnection(d, library, board, i);
    PinIsReached(d, library, board, c, pin);
    NoLock(ctx, c);
    assert LockedConnection(ctx, c) == c;
    assert Choice(ctx, Locked(d, ctx), i) == DecideGpio(ctx, pin, used);
    BestIsPicked(board, pin, used);
    assert OnBestFree(c, Solve(d, library).design.connections[i], board, pin, used);
  }

  lemma NoLock(ctx: Context, c: Connection)
    requires forall m, k :: LastEntry(ctx.components, m, c.componentId) ==>
      !FirstLockAt(ctx.components[m].locks, k, c.role)
    ensures LockFor(ctx, c) == None
  {
    hide FindLock, FirstLockAt, FindComponent;
    FoundIsLast(ctx.components, c.componentId);
    if FindComponent(ctx.components, c.componentId).Some? {
      LockIsFirst(FindComponent(ctx.components, c.componentId).value.locks, c.role);
    }
  }

  // -------------------------------------------------------- what is in use

  predicate HasSlot(b: Bus, slot: string, p: string)
  {
    && slot in {"sda", "scl", "miso", "mosi", "clk", "cs", "rx", "tx", "lrclk", "bclk", "pin"}
    && slot in b.fields && b.fields[slot] == p
  }

  /** A bus of the design runs on the pin. */
  ghost predicate OnBusSlot(d: Design, p: string)
  {
    p != "" && exists i, slot :: 0 <= i < |d.buses| && HasSlot(d.buses[i], slot, p)
  }

  /** The connection's component locks its role to the pin. */
  ghost predicate LockedTo(d: Design, c: Connection, p: string)
  {
    exists m, k :: LastEntry(d.components, m, c.componentId) && FirstLockAt(d.components[m].locks, k, c.role)
      && d.components[m].locks[k].pin == p
  }

  /** The pin is taken before connection i's turn: by a bus, by a connection bound on entry, by
      the lock of a gpio connection, or by a connection the pass has bound. */
  ghost predicate TakenBefore(d: Design, out: seq<Connection>, i: nat, p: string)
    requires i <= |d.connections| == |out|
  {
    || OnBusSlot(d, p)
    || (exists j :: 0 <= j < |d.connections| && d.connections[j].target == Gpio(p) && p != "")
    || (exists j :: 0 <= j < |d.connections| && d.connections[j].target.Gpio? && LockedTo(d, d.connections[j], p))
    || (exists j :: 0 <= j < i && d.connections[j].target == Gpio("") && out[j].target == Gpio(p) && p != "")
  }

  lemma SlotPinsExactly(d: Design, p: string)
    ensures p in BusPins(d.buses) <==> OnBusSlot(d, p)
  {
    if OnBusSlot(d, p) {
      var i, slot :| 0 <= i < |d.buses| && HasSlot(d.buses[i], slot, p);
      assert d.buses[i] in d.buses;
    }
    if p in BusPins(d.buses) {
      var b, slot :| b in d.buses && slot in BUS_PIN_SLOTS && slot in b.fields && b.fields[slot] == p;
      var i :| 0 <= i < |d.buses| && d.buses[i] == b;
      assert HasSlot(d.buses[i], slot, p);
    }
  }

  lemma LockIsFound(d: Design, ctx: Context, c: Connection, p: string)
    requires ctx.components == d.components
    ensures LockFor(ctx, c) == Some(p) <==> LockedTo(d, c, p)
  {
    hide FindLock, FirstLockAt, FindComponent;
    FoundIsLast(d.components, c.componentId);
    if FindComponent(d.components, c.componentId).Some? {
      var m :| LastEntry(d.components, m, c.componentId)
        && d.components[m] == FindComponent(d.components, c.componentId).value;
      forall n | LastEntry(d.components, n, c.componentId) ensures n == m {
        OneLastEntry(d.components, m, n, c.componentId);
      }
      LockIsFirst(d.components[m].locks, c.role);
    }
  }

  lemma UsedOnEntry(d: Design, p: string)
    ensures p in UsedGpioPins(d) <==>
      OnBusSlot(d, p) || exists j :: 0 <= j < |d.connections| && d.connections[j].target == Gpio(p) && p != ""
  {
    hide OnBusSlot, BusPins;
    SlotPinsExactly(d, p);
    if j :| 0 <= j < |d.connections| && d.connections[j].target == Gpio(p) && p != "" {
      assert d.connections[j] in d.connections;
    }
  }

  /** The pins in use when a connection's turn comes, exactly. */
  lemma UsedAtTurn(d: Design, library: Library, board: Board, i: nat, p: string)
    requires BoardOf(d, library) == Some(board) && i < |d.connections|
    ensures
      var ctx, out := ContextOf(d, library, board), Solve(d, library).design.connections;
      |out| == |d.connections| && (p in After(ctx, Locked(d, ctx), i).used <==> TakenBefore(d, out, i, p))
  {
    hide Locked, After, UsedGpioPins, OnBusSlot, LockedTo, Solve, Choice;
    var ctx, out := ContextOf(d, library, board), Solve(d, library).design.connections;
    var st := Locked(d, ctx);
    SolveFrame(d, library);
    AfterUsed(ctx, st, i, p);
    UsedAfterLocks(d, ctx, p);
    UsedOnEntry(d, p);
    forall j | 0 <= j < |d.connections|
      ensures ReservedBy(ctx, d.connections[j], p) <==>
        d.connections[j].target.Gpio? && LockedTo(d, d.connections[j], p)
    {
      LockIsFound(d, ctx, d.connections[j], p);
    }
    forall j | 0 <= j < i
      ensures Choice(ctx, st, j) == Bind(Gpio(p)) ==>
        d.connections[j].target == Gpio("") && out[j].target == Gpio(p) && p != ""
      ensures d.connections[j].target == Gpio("") && out[j].target == Gpio(p) && p != "" ==>
        Choice(ctx, st, j) == Bind(Gpio(p)) || ReservedBy(ctx, d.connections[j], p)
    {
      BoundAtTurn(d, library, board, j, p);
    }
  }

  lemma BoundAtTurn(d: Design, library: Library, board: Board, j: nat, p: string)
    requires BoardOf(d, library) == Some(board) && j < |d.connections|
    ensures
      var ctx, out := ContextOf(d, library, board), Solve(d, library).design.connections;
      var choice := Choice(ctx, Locked(d, ctx), j);
      && |out| == |d.connections|
      && (choice == Bind(Gpio(p)) ==> d.connections[j].target == Gpio("") && out[j].target == Gpio(p) && p != "")
      && (d.connections[j].target == Gpio("") && out[j].target == Gpio(p) && p != "" ==>
            choice == Bind(Gpio(p)) || ReservedBy(ctx, d.connections[j], p))
  {
    hide Locked, Decide;
    var ctx := ContextOf(d, library, board);
    SolvedConnection(d, library, board, j);
    if Choice(ctx, Locked(d, ctx), j) == Bind(Gpio(p)) {
      GpioChoice(ctx, Locked(d, ctx), j, p);
    }
  }

  /** The slots of named expanders in use when a connection's turn comes, exactly. */
  lemma SlotsUsedAtTurn(d: Design, library: Library, board: Board, i: nat, s: Slot)
    requires BoardOf(d, library) == Some(board) && i < |d.connections| && s.0 != ""
    ensures
      var ctx, out := ContextOf(d, library, board), Solve(d, library).design.connections;
      && |out| == |d.connections|
      && (s in After(ctx, Locked(d, ctx), i).usedEx <==>
            || (exists j :: 0 <= j < |d.connections| && OnSlot(d.connections[j], s))
            || (exists j :: 0 <= j < i && OnSlot(out[j], s)))
  {
    hide Locked, After, UsedExpanderPins, Solve, Choice, OnSlot;
    var ctx, out := ContextOf(d, library, board), Solve(d, library).design.connections;
    var st := Locked(d, ctx);
    SolveFrame(d, library);
    AfterUsedEx(ctx, st, i, s);
    UsedAfterLocks(d, ctx, "");
    SlotsOnEntry(d, s);
    forall j | 0 <= j < i
      ensures OnSlot(out[j], s) <==> OnSlot(d.connections[j], s) || TakesSlot(Choice(ctx, st, j), s)
    {
      SlotAtTurn(d, library, board, j, s);
    }
  }

  lemma SlotsOnEntry(d: Design, s: Slot)
    requires s.0 != ""
    ensures s in UsedExpanderPins(d.connections) <==>
      exists j :: 0 <= j < |d.connections| && OnSlot(d.connections[j], s)
  {
    if j :| 0 <= j < |d.connections| && OnSlot(d.connections[j], s) {
      assert d.connections[j] in d.connections;
    }
    if s in UsedExpanderPins(d.connections) {
      var c :| c in d.connections && c.target.ExpanderPin? && c.target.expanderId == s.0
        && c.target.number == Some(s.1);
      var j :| 0 <= j < |d.connections| && d.connections[j] == c;
      assert OnSlot(d.connections[j], s);
    }
  }

  lemma SlotAtTurn(d: Design, library: Library, board: Board, j: nat, s: Slot)
    requires BoardOf(d, library) == Some(board) && j < |d.connections| && s.0 != ""
    ensures
      var ctx, out := ContextOf(d, library, board), Solve(d, library).design.connections;
      && |out| == |d.connections|
      && (OnSlot(out[j], s) <==> OnSlot(d.connections[j], s) || TakesSlot(Choice(ctx, Locked(d, ctx), j), s))
  {
    hide Locked, Decide;
    var ctx := ContextOf(d, library, board);
    SolvedConnection(d, library, board, j);
    if TakesSlot(Choice(ctx, Locked(d, ctx), j), s) {
      SlotChoiceIsFree(ctx, Locked(d, ctx), j, s);
    }
    if OnSlot(d.connections[j], s) {
      BoundIsLeft(ctx, Locked(d, ctx), j);
    }
  }

  lemma BoundIsLeft(ctx: Context, st: State, j: nat)
    requires j < |st.connections| && !Unbound(st.connections[j].target)
    ensures Choice(ctx, st, j).Leave?
  {
    AfterConnections(ctx, st, j, j);
  }

  /** Without a board nothing is solved, and the result says which of the two reasons it is. */
  lemma ErrorsExactly(d: Design, library: Library)
    ensures Solve(d, library).error == Some("no_board") <==> d.board.None? || d.board == Some("")
    ensures Solve(d, library).error == Some("unknown_board") <==>
      d.board.Some? && |d.board.value| > 0 && d.board.value !in library.boards
    ensures Solve(d, library).error.Some? ==>
      Solve(d, library).error.value in {"no_board", "unknown_board"}
      && Solve(d, library).design == d && Solve(d, library).assignments == [] && Solve(d, library).unresolved == []
  {
    hide Finished;
    assert "no_board"[0] != "unknown_board"[0];
  }

  // ---------------------------------------------------------- expander slots

  /** The slot exists: its id is an expander's and its number below the expander's size. */
  ghost predicate Offers(d: Design, library: Library, s: Slot)
  {
    exists libraryId :: InstanceOf(d.components, s.0, libraryId) && libraryId in library.components
      && library.components[libraryId].category == "io_expander"
      && 0 <= s.1 < if Contains(library.components[libraryId].id, "23017") then 16 else 8
  }

  /** The first id is mentioned before the second. */
  predicate MentionedBefore(components: seq<Component>, x: string, y: string)
  {
    exists j :: 0 <= j < |components| && components[j].id == x && forall k :: 0 <= k <= j ==> components[k].id != y
  }

  /** Expanders in the order of the dict of components, each one's numbers upwards. */
  predicate Precedes(components: seq<Component>, s: Slot, t: Slot)
  {
    if s.0 == t.0 then s.1 < t.1 else MentionedBefore(components, s.0, t.0)
  }

  lemma {:induction false} IdsInOrder(components: seq<Component>)
    ensures forall a, b :: 0 <= a < b < |ComponentIds(components)| ==>
      MentionedBefore(components, ComponentIds(components)[a], ComponentIds(components)[b])
  {
    if components != [] {
      var rest, last := components[..|components| - 1], components[|components| - 1];
      IdsInOrder(rest);
      var before, ids := ComponentIds(rest), ComponentIds(components);
      forall a, b | 0 <= a < b < |ids| ensures MentionedBefore(components, ids[a], ids[b]) {
        if b < |before| {
          MentionedStill(rest, last, before[a], before[b]);
        } else {
          MentionedFirst(rest, last, before[a]);
        }
      }
    }
  }

  lemma MentionedStill(rest: seq<Component>, last: Component, x: string, y: string)
    requires MentionedBefore(rest, x, y)
    ensures MentionedBefore(rest + [last], x, y)
  {
    var j :| 0 <= j < |rest| && rest[j].id == x && forall k :: 0 <= k <= j ==> rest[k].id != y;
    assert (rest + [last])[j].id == x;
  }

  lemma MentionedFirst(rest: seq<Component>, last: Component, x: string)
    requires x in ComponentIds(rest) && last.id !in ComponentIds(rest)
    ensures MentionedBefore(rest + [last], x, last.id)
  {
    var c :| c in rest && c.id == x;
    var j :| 0 <= j < |rest| && rest[j] == c;
    assert (rest + [last])[j].id == x;
    forall k | 0 <= k <= j ensures (rest + [last])[k].id != last.id {
      assert rest[k] in rest;
    }
  }

  ghost predicate InOrder(components: seq<Component>, ids: seq<string>)
  {
    forall a, b :: 0 <= a < b < |ids| ==> MentionedBefore(components, ids[a], ids[b])
  }

  lemma {:induction false} ExpandersInOrder(ctx: Context, ids: seq<string>)
    requires InOrder(ctx.components, ids)
    ensures InOrder(ctx.components, ctx.ExpandersFrom(ids))
  {
    hide MentionedBefore;
    if ids != [] {
      ExpandersInOrder(ctx, ids[1..]);
      var rest := ctx.ExpandersFrom(ids[1..]);
      forall b | 0 <= b < |rest| ensures MentionedBefore(ctx.components, ids[0], rest[b]) {
        ExpandersAreExpanders(ctx, ids[1..], rest[b]);
        var k :| 0 <= k < |ids[1..]| && ids[1..][k] == rest[b];
        assert ids[k + 1] == rest[b];
      }
    }
  }

  ghost predicate SlotsInOrder(components: seq<Component>, slots: seq<Slot>)
  {
    forall a, b :: 0 <= a < b < |slots| ==> Precedes(components, slots[a], slots[b])
  }

  lemma {:induction false} SlotsOfOne(ctx: Context, id: string, n: nat)
    requires n <= ctx.SizeOf(id)
    ensures SlotsInOrder(ctx.components, ctx.SlotsFrom(id, n))
    decreases ctx.SizeOf(id) - n
  {
    if n < ctx.SizeOf(id) {
      SlotsOfOne(ctx, id, n + 1);
      forall s | s in ctx.SlotsFrom(id, n + 1) ensures Precedes(ctx.components, (id, n), s) {
        SlotsInRange(ctx, id, n + 1, s);
      }
    }
  }

  lemma {:induction false} AllSlotsInOrder(ctx: Context, ids: seq<string>)
    requires InOrder(ctx.components, ids)
    ensures SlotsInOrder(ctx.components, ctx.AllSlots(ids))
  {
    hide MentionedBefore;
    if ids != [] {
      SlotsOfOne(ctx, ids[0], 0);
      AllSlotsInOrder(ctx, ids[1..]);
      forall s, t | s in ctx.SlotsFrom(ids[0], 0) && t in ctx.AllSlots(ids[1..])
        ensures Precedes(ctx.components, s, t)
      {
        SlotsInRange(ctx, ids[0], 0, s);
        AllSlotsInRange(ctx, ids[1..], t);
        var k :| 0 <= k < |ids[1..]| && ids[1..][k] == t.0;
        assert ids[k + 1] == t.0 && MentionedBefore(ctx.components, ids[0], ids[k + 1]);
        NotBeforeItself(ctx.components, ids[0]);
      }
    }
  }

  lemma NotBeforeItself(components: seq<Component>, id: string)
    ensures !MentionedBefore(components, id, id)
  {
  }

  lemma SlotsAreOffered(d: Design, library: Library, board: Board, s: Slot)
    ensures
      var ctx := ContextOf(d, library, board);
      s in ctx.AllSlots(ctx.Expanders()) <==> Offers(d, library, s)
  {
    var ctx := ContextOf(d, library, board);
    AllSlotsInRange(ctx, ctx.Expanders(), s);
    ExpandersAreExpanders(ctx, ComponentIds(d.components), s.0);
    hide FindComponent, InstanceOf, Contains;
    forall libraryId {
      InstanceIsFound(d.components, s.0, libraryId);
    }
  }

  lemma {:induction false} FirstFreeIsLeast(components: seq<Component>, slots: seq<Slot>, used: set<Slot>)
    requires SlotsInOrder(components, slots)
    ensures FirstFreeSlot(slots, used).Some? ==>
      forall t | t in slots && t !in used ::
        t == FirstFreeSlot(slots, used).value || Precedes(components, FirstFreeSlot(slots, used).value, t)
  {
    hide Precedes;
    if slots != [] {
      assert slots == [slots[0]] + slots[1..];
      FirstFreeIsLeast(components, slots[1..], used);
      forall t | t in slots ensures t == slots[0] || Precedes(components, slots[0], t) {
        var k :| 0 <= k < |slots| && slots[k] == t;
      }
    }
  }

  /** The slot precedes every other one on offer that is not in use. */
  ghost predicate LeastFree(d: Design, library: Library, used: set<Slot>, s: Slot)
  {
    && Offers(d, library, s) && s !in used
    && forall t :: Offers(d, library, t) && t !in used ==> t == s || Precedes(d.components, s, t)
  }

  lemma SlotIsLeast(d: Design, library: Library, board: Board, used: set<Slot>)
    ensures
      var ctx := ContextOf(d, library, board);
      match FirstFreeSlot(ctx.AllSlots(ctx.Expanders()), used)
      case None => forall s :: Offers(d, library, s) ==> s in used
      case Some(s) => LeastFree(d, library, used, s)
  {
    var ctx := ContextOf(d, library, board);
    var slots := ctx.AllSlots(ctx.Expanders());
    hide MentionedBefore, Precedes, Offers, FirstFreeSlot;
    IdsInOrder(d.components);
    ExpandersInOrder(ctx, ComponentIds(d.components));
    AllSlotsInOrder(ctx, ctx.Expanders());
    FirstFreeSlotIsFree(slots, used);
    FirstFreeIsLeast(d.components, slots, used);
    forall s {
      SlotsAreOffered(d, library, board, s);
    }
  }

  /** A pin on any expander ends on the least free slot, keeping its mode and inversion, and is
      left alone when no slot is free. */
  lemma SlotExactly(d: Design, library: Library, board: Board, i: nat, pin: LibPin)
    requires BoardOf(d, library) == Some(board) && i < |d.connections|
    requires d.connections[i].target.ExpanderPin? && d.connections[i].target.expanderId == ""
    requires ResolvesTo(d, library, d.connections[i], pin)
    ensures
      var ctx, c, out := ContextOf(d, library, board), d.connections[i], Solve(d, library).design.connections;
      var used := After(ctx, Locked(d, ctx), i).usedEx;
      && |out| == |d.connections|
      && ((forall s :: Offers(d, library, s) ==> s in used) ==> out[i] == c)
      && (!(forall s :: Offers(d, library, s) ==> s in used) ==>
            exists s :: LeastFree(d, library, used, s)
              && out[i] == c.(target := c.target.(expanderId := s.0, number := Some(s.1))))
  {
    var ctx, c := ContextOf(d, library, board), d.connections[i];
    var used := After(ctx, Locked(d, ctx), i).usedEx;
    SolvedConnection(d, library, board, i);
    PinIsReached(d, library, board, c, pin);
    assert Choice(ctx, Locked(d, ctx), i) == DecideExpander(ctx, c.target, used);
    hide Locked, Choice, ComponentWithPin, Offers, Precedes, After, FirstFreeSlot;
    SlotIsLeast(d, library, board, used);
    NoExpanderNoSlot(ctx);
  }

  lemma NoExpanderNoSlot(ctx: Context)
    ensures ctx.Expanders() == [] ==> ctx.AllSlots(ctx.Expanders()) == []
  {
  }

  // ------------------------------------------------------------------- codes

  ghost predicate AnyExpander(d: Design, library: Library)
  {
    exists id, libraryId :: InstanceOf(d.components, id, libraryId) && libraryId in library.components
      && library.components[libraryId].category == "io_expander"
  }

  /** The code of a resolving connection that found nothing to be bound to. */
  ghost function PinFault(d: Design, library: Library, t: Target, pin: LibPin): string
    requires Unbound(t)
  {
    match t
    case Gpio(_) => "no_gpio_candidate"
    case OnBus(_) => if pin.kind in BUS_TYPES then "no_matching_bus" else "bus_pin_no_type"
    case ExpanderPin(_, _, _, _) => if AnyExpander(d, library) then "no_expander_pin" else "no_expander"
    case OnComponent(_) => "no_parent_component"
  }

  lemma AnyExpanderIsListed(d: Design, library: Library, board: Board)
    ensures ContextOf(d, library, board).Expanders() == [] <==> !AnyExpander(d, library)
  {
    var ctx := ContextOf(d, library, board);
    hide FindComponent, InstanceOf, ComponentIds;
    if ctx.Expanders() != [] {
      var id := ctx.Expanders()[0];
      ExpandersAreExpanders(ctx, ComponentIds(d.components), id);
      InstanceIsFound(d.components, id, FindComponent(d.components, id).value.libraryId);
    }
    if AnyExpander(d, library) {
      var id, libraryId :| InstanceOf(d.components, id, libraryId) && libraryId in library.components
        && library.components[libraryId].category == "io_expander";
      InstanceIsFound(d.components, id, libraryId);
      ExpandersAreExpanders(ctx, ComponentIds(d.components), id);
    }
  }

  ghost predicate MissingEntry(d: Design, library: Library, id: string)
  {
    exists libraryId :: InstanceOf(d.components, id, libraryId) && libraryId !in library.components
  }

  ghost predicate MissingRole(d: Design, library: Library, id: string, role: string)
  {
    exists libraryId :: InstanceOf(d.components, id, libraryId) && libraryId in library.components
      && forall p | p in library.components[libraryId].pins :: p.role != role
  }

  lemma ReachFaults(d: Design, library: Library, board: Board, c: Connection)
    ensures
      match ComponentWithPin(ContextOf(d, library, board), c)
      case Leave => exists pin :: ResolvesTo(d, library, c, pin)
      case Bind(_) => false
      case Report(code) =>
        && (code == "unknown_component" <==> forall m :: !LastEntry(d.components, m, c.componentId))
        && (code == "unknown_library_component" <==> MissingEntry(d, library, c.componentId))
        && (code == "unknown_pin_role" <==> MissingRole(d, library, c.componentId, c.role))
  {
    hide FindRole, FindComponent, ResolvesTo, LastEntry, InstanceOf;
    var ctx, found := ContextOf(d, library, board), FindComponent(d.components, c.componentId);
    FoundIsLast(d.components, c.componentId);
    forall libraryId
      ensures InstanceOf(d.components, c.componentId, libraryId) <==> found.Some? && found.value.libraryId == libraryId
    {
      InstanceIsFound(d.components, c.componentId, libraryId);
    }
    if found.Some? {
      assert InstanceOf(d.components, c.componentId, found.value.libraryId);
    }
    if ComponentWithPin(ctx, c).Leave? {
      PinIsResolved(d, library, c, PinOf(library, d.components, c).value);
    }
  }

  lemma PinFaults(d: Design, library: Library, board: Board, c: Connection, pin: LibPin,
                  used: set<string>, usedEx: set<Slot>)
    requires Unbound(c.target) && ResolvesTo(d, library, c, pin)
    ensures
      match Decide(ContextOf(d, library, board), c, used, usedEx)
      case Leave => false
      case Bind(_) => true
      case Report(code) => code == PinFault(d, library, c.target, pin)
  {
    hide ResolvesTo, AnyExpander, ComponentWithPin;
    PinIsReached(d, library, board, c, pin);
    BusTypesAgree(pin.kind);
    AnyExpanderIsListed(d, library, board);
  }

  /** What a code says of a connection left unbound, in terms of the design and the library,
      and that a connection is passed over in silence only when it is bound. */
  lemma CodesTell(d: Design, library: Library, board: Board, i: nat)
    requires BoardOf(d, library) == Some(board) && i < |d.connections|
    ensures
      var ctx, c := ContextOf(d, library, board), d.connections[i];
      var choice := Choice(ctx, Locked(d, ctx), i);
      && (choice.Leave? <==> !Unbound(LockedConnection(ctx, c).target))
      && (choice.Report? ==>
            && Unbound(c.target)
            && (choice.code == "unknown_component" <==> forall m :: !LastEntry(d.components, m, c.componentId))
            && (choice.code == "unknown_library_component" <==> MissingEntry(d, library, c.componentId))
            && (choice.code == "unknown_pin_role" <==> MissingRole(d, library, c.componentId, c.role))
            && (forall pin :: ResolvesTo(d, library, c, pin) ==> choice.code == PinFault(d, library, c.target, pin)))
  {
    var ctx, c := ContextOf(d, library, board), d.connections[i];
    var st := Locked(d, ctx);
    SolvedConnection(d, library, board, i);
    AfterConnections(ctx, st, i, i);
    LockedUnbound(ctx, c);
    assert Choice(ctx, st, i)
      == Decide(ctx, LockedConnection(ctx, c), After(ctx, st, i).used, After(ctx, st, i).usedEx);
    hide Choice, Locked, LockedConnection, After, LastEntry, MissingEntry, MissingRole, ResolvesTo, PinFault;
    if Unbound(LockedConnection(ctx, c).target) {
      DecisionTells(d, library, board, c, After(ctx, st, i).used, After(ctx, st, i).usedEx);
    }
  }

  lemma LockedUnbound(ctx: Context, c: Connection)
    ensures Unbound(LockedConnection(ctx, c).target) ==> LockedConnection(ctx, c) == c
  {
  }

  lemma ResolvedHasNoFault(d: Design, library: Library, board: Board, c: Connection)
    ensures (exists pin :: ResolvesTo(d, library, c, pin)) <==>
      ComponentWithPin(ContextOf(d, library, board), c).Leave?
    ensures (exists pin :: ResolvesTo(d, library, c, pin)) ==>
      && (exists m :: LastEntry(d.components, m, c.componentId))
      && !MissingEntry(d, library, c.componentId) && !MissingRole(d, library, c.componentId, c.role)
  {
    hide ResolvesTo, ComponentWithPin, FindComponent, FindRole, LastEntry;
    ReachFaults(d, library, board, c);
    if pin :| ResolvesTo(d, library, c, pin) {
      PinIsReached(d, library, board, c, pin);
      PinIsResolved(d, library, c, pin);
      FoundIsLast(d.components, c.componentId);
      hide InstanceOf;
      forall libraryId | InstanceOf(d.components, c.componentId, libraryId)
        ensures FindComponent(d.components, c.componentId).Some?
        ensures libraryId == FindComponent(d.components, c.componentId).value.libraryId
      {
        InstanceIsFound(d.components, c.componentId, libraryId);
      }
    }
  }

  /** The codes of a pin that resolves are none of the three that say it does not. */
  lemma PinFaultsAreOther(d: Design, library: Library, t: Target, pin: LibPin)
    requires Unbound(t)
    ensures PinFault(d, library, t, pin) !in {"unknown_component", "unknown_library_component", "unknown_pin_role"}
  {
    hide AnyExpander;
    assert "no_gpio_candidate"[0] != "unknown_component"[0];
  }

  lemma DecisionTells(d: Design, library: Library, board: Board, c: Connection, used: set<string>, usedEx: set<Slot>)
    requires Unbound(c.target)
    ensures
      var choice := Decide(ContextOf(d, library, board), c, used, usedEx);
      && !choice.Leave?
      && (choice.Report? ==>
            && (choice.code == "unknown_component" <==> forall m :: !LastEntry(d.components, m, c.componentId))
            && (choice.code == "unknown_library_component" <==> MissingEntry(d, library, c.componentId))
            && (choice.code == "unknown_pin_role" <==> MissingRole(d, library, c.componentId, c.role))
            && (forall pin :: ResolvesTo(d, library, c, pin) ==> choice.code == PinFault(d, library, c.target, pin)))
  {
    hide MissingEntry, MissingRole, LastEntry, ResolvesTo, ComponentWithPin, PinFault,
      DecideGpio, DecideBus, DecideExpander, DecideParent;
    ReachFaults(d, library, board, c);
    ResolvedHasNoFault(d, library, board, c);
    if pin :| ResolvesTo(d, library, c, pin) {
      PinFaultsAreOther(d, library, c.target, pin);
      forall pin | ResolvesTo(d, library, c, pin)
        ensures
          match Decide(ContextOf(d, library, board), c, used, usedEx)
          case Leave => false
          case Bind(_) => true
          case Report(code) => code == PinFault(d, library, c.target, pin)
      {
        PinFaults(d, library, board, c, pin, used, usedEx);
      }
    }
  }
}
