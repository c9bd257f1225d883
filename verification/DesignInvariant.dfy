/** What every sequence of edits keeps. */
module DesignInvariant {
  import opened Options
  import opened Text
  import opened DesignModel
  import opened PinSolver
  import opened SolverTrace
  import opened DesignEdits

  ghost predicate DistinctComponents(components: seq<Component>)
  {
    forall i, j :: 0 <= i < j < |components| ==> components[i].id != components[j].id
  }

  ghost predicate DistinctBuses(buses: seq<Bus>)
  {
    forall i, j :: 0 <= i < j < |buses| ==> buses[i].id != buses[j].id
  }

  /** A bus target is empty or names a bus. */
  predicate BusResolves(t: Target, buses: seq<Bus>)
  {
    t.OnBus? && t.busId != "" ==> t.busId in BusIdSet(buses)
  }

  /** The connection's owner is in the design, and its bus, if it names one, too. */
  predicate Anchored(c: Connection, d: Design)
  {
    c.componentId in IdSet(d.components) && BusResolves(c.target, d.buses)
  }

  ghost predicate Inv(d: Design)
  {
    && DistinctComponents(d.components) && DistinctBuses(d.buses)
    && forall c | c in d.connections :: Anchored(c, d)
  }

  // --------------------------------------------------------- fresh bus names

  function NamesUpTo(prefix: string, m: nat): set<string>
  {
    set k | 1 <= k <= m :: Numbered(prefix, k)
  }

  lemma {:induction false} NamesCount(prefix: string, m: nat)
    ensures |NamesUpTo(prefix, m)| == m
  {
    if m == 0 {
      assert NamesUpTo(prefix, 0) == {};
    } else {
      hide NamesUpTo, Numbered;
      NamesCount(prefix, m - 1);
      OneMoreName(prefix, m);
    }
  }

  lemma OneMoreName(prefix: string, m: nat)
    requires m > 0
    ensures Numbered(prefix, m) !in NamesUpTo(prefix, m - 1)
    ensures NamesUpTo(prefix, m) == NamesUpTo(prefix, m - 1) + {Numbered(prefix, m)}
  {
    hide Numbered;
    forall k: nat | 1 <= k <= m - 1 ensures Numbered(prefix, k) != Numbered(prefix, m) {
      if Numbered(prefix, k) == Numbered(prefix, m) {
        NumberedDiffers(prefix, k, m);
      }
    }
    assert NamesUpTo(prefix, m) == NamesUpTo(prefix, m - 1) + {Numbered(prefix, m)};
  }

  lemma NumberedDiffers(prefix: string, k: nat, m: nat)
    requires Numbered(prefix, k) == Numbered(prefix, m)
    ensures k == m
  {
    NumberedInjective(prefix, k, m);
  }

  lemma SubsetSize<T>(a: set<T>, b: set<T>)
    requires a <= b
    ensures |a| <= |b|
  {
    assert b == a + (b - a);
  }

  lemma {:induction false} IdSetSize(buses: seq<Bus>)
    ensures |BusIdSet(buses)| <= |buses|
  {
    if buses != [] {
      var last := |buses| - 1;
      IdSetSize(buses[..last]);
      assert buses == buses[..last] + [buses[last]];
      assert BusIdSet(buses) == BusIdSet(buses[..last]) + {buses[last].id};
    }
  }

  /** All 999 names for the type are taken, and so is the fallback for n buses. */
  ghost predicate NamesTaken(buses: seq<Bus>, kind: string, n: nat)
  {
    NamesUpTo(kind + "_", 999) <= BusIdSet(buses) && Numbered(kind + "_", n) in BusIdSet(buses)
  }

  /** Exactly: the name collides when all 999 names and the fallback are taken. */
  lemma NextBusIdCollidesIff(buses: seq<Bus>, kind: string)
    ensures NextBusId(buses, kind) in BusIdSet(buses) <==> NamesTaken(buses, kind, |buses|)
    ensures NextBusId(buses, kind) in BusIdSet(buses) ==> NextBusId(buses, kind) == Numbered(kind + "_", |buses|)
  {
    var n := FirstFree(kind + "_", BusIdSet(buses), 1);
    if n < 1000 {
      assert Numbered(kind + "_", n) in NamesUpTo(kind + "_", 999);
    }
  }

  /** Fewer than 999 buses leave one of the 999 names free. */
  lemma FewBusesLeaveAName(buses: seq<Bus>, kind: string, n: nat)
    requires |buses| < 999
    ensures !NamesTaken(buses, kind, n)
  {
    NamesCount(kind + "_", 999);
    IdSetSize(buses);
    if NamesUpTo(kind + "_", 999) <= BusIdSet(buses) {
      SubsetSize(NamesUpTo(kind + "_", 999), BusIdSet(buses));
    }
  }

  // ----------------------------------------------------------------- seeding

  function BusTypes(): set<string>
  {
    {"i2c", "spi", "i2s", "uart", "1wire"}
  }

  function MissingTypes(buses: seq<Bus>): set<string>
  {
    BusTypes() - BusKinds(buses)
  }

  /** The buses there are and the ones seeding could still add: a type is only seeded while
      the design has no bus of it. */
  function Load(buses: seq<Bus>): nat
  {
    |buses| + |MissingTypes(buses)|
  }

  lemma OneMoreBus(buses: seq<Bus>, b: Bus)
    ensures MissingTypes(buses + [b]) == MissingTypes(buses) - {b.kind}
    ensures Load(buses + [b]) == Load(buses) + if b.kind in MissingTypes(buses) then 0 else 1
  {
    hide BusTypes;
    assert BusKinds(buses + [b]) == BusKinds(buses) + {b.kind};
    var before, after := MissingTypes(buses), MissingTypes(buses + [b]);
    assert after == before - {b.kind};
    assert b.kind in before ==> before == after + {b.kind};
  }

  /** The types from index k on are missing and distinct. */
  ghost predicate Seedable(buses: seq<Bus>, kinds: seq<string>, k: nat)
  {
    && (forall i :: k <= i < |kinds| ==> kinds[i] in MissingTypes(buses))
    && (forall i, j :: 0 <= i < j < |kinds| ==> kinds[i] != kinds[j])
  }

  lemma SeedOne(buses: seq<Bus>, kinds: seq<string>, k: nat, b: Bus)
    requires k < |kinds| && Seedable(buses, kinds, k) && b.kind == kinds[k]
    ensures Seedable(buses + [b], kinds, k + 1) && Load(buses + [b]) == Load(buses) && |buses| < Load(buses)
  {
    OneMoreBus(buses, b);
    assert kinds[k] in MissingTypes(buses);
    hide MissingTypes;
  }

  function SeedBus(buses: seq<Bus>, kind: string, board: Board): Bus
  {
    Bus(NextBusId(buses, kind), kind, DefaultFields(board, kind))
  }

  lemma WithBusesStep(buses: seq<Bus>, kinds: seq<string>, n: nat, board: Board)
    requires n < |kinds|
    ensures
      var before := WithBuses(buses, kinds, n, board);
      WithBuses(buses, kinds, n + 1, board) == before + [SeedBus(before, kinds[n], board)]
  {
    hide NextBusId, DefaultFields;
  }

  /** Seeding moves the load from missing types to buses. */
  lemma {:induction false} WithBusesLoad(buses: seq<Bus>, kinds: seq<string>, n: nat, board: Board)
    requires n <= |kinds| && Seedable(buses, kinds, 0)
    ensures Load(WithBuses(buses, kinds, n, board)) == Load(buses)
    ensures Seedable(WithBuses(buses, kinds, n, board), kinds, n)
  {
    hide SeedBus, Load, Seedable;
    if n > 0 {
      WithBusesLoad(buses, kinds, n - 1, board);
      WithBusesStep(buses, kinds, n - 1, board);
      var before := WithBuses(buses, kinds, n - 1, board);
      hide WithBuses;
      assert SeedBus(before, kinds[n - 1], board).kind == kinds[n - 1] by {
        SeedKind(before, kinds[n - 1], board);
      }
      SeedOne(before, kinds, n - 1, SeedBus(before, kinds[n - 1], board));
    }
  }

  lemma SeedKind(buses: seq<Bus>, kind: string, board: Board)
    ensures SeedBus(buses, kind, board).kind == kind && SeedBus(buses, kind, board).id == NextBusId(buses, kind)
  {
    hide NextBusId;
  }

  lemma FirstUnderscore(kind: string, x: nat)
    requires kind in BusTypes()
    ensures
      var s := Numbered(kind + "_", x);
      |kind| < |s| && s[..|kind|] == kind && s[|kind|] == '_' && forall i :: 0 <= i < |kind| ==> s[i] != '_'
  {
    assert '_' !in kind;
    hide BusTypes;
    var s := Numbered(kind + "_", x);
    assert s == kind + ("_" + Decimal(x));
    forall i | 0 <= i < |kind| ensures s[i] != '_' {
      assert s[i] == kind[i] && kind[i] in kind;
    }
  }

  /** Names generated for different types differ. */
  lemma TypesNameApart(a: string, b: string, x: nat, y: nat)
    requires a in BusTypes() && b in BusTypes() && a != b
    ensures Numbered(a + "_", x) != Numbered(b + "_", y)
  {
    hide BusTypes, Numbered;
    FirstUnderscore(a, x);
    FirstUnderscore(b, y);
  }

  ghost predicate NamedFor(id: string, kind: string)
  {
    exists x: nat :: id == Numbered(kind + "_", x)
  }

  lemma NextBusIdIsNamed(buses: seq<Bus>, kind: string)
    ensures NamedFor(NextBusId(buses, kind), kind)
  {
  }

  /** Which buses seeding adds: one for each type, named for it. */
  lemma {:induction false} WithBusesShape(buses: seq<Bus>, kinds: seq<string>, n: nat, board: Board)
    requires n <= |kinds|
    ensures
      var r := WithBuses(buses, kinds, n, board);
      && |r| == |buses| + n && buses <= r
      && (forall i :: 0 <= i < n ==> NamedFor(r[|buses| + i].id, kinds[i]))
  {
    hide SeedBus, NamedFor, NextBusId;
    if n > 0 {
      WithBusesShape(buses, kinds, n - 1, board);
      WithBusesStep(buses, kinds, n - 1, board);
      var before := WithBuses(buses, kinds, n - 1, board);
      hide WithBuses;
      SeedKind(before, kinds[n - 1], board);
      NextBusIdIsNamed(before, kinds[n - 1]);
    }
  }

  /** The types are bus types and distinct. */
  ghost predicate ProperTypes(kinds: seq<string>)
  {
    && (forall i :: 0 <= i < |kinds| ==> kinds[i] in BusTypes())
    && (forall i, j :: 0 <= i < j < |kinds| ==> kinds[i] != kinds[j])
  }

  /** Seeding other types takes none of a type's names. */
  lemma SeedingTakesNoOther(buses: seq<Bus>, kinds: seq<string>, n: nat, board: Board, x: nat)
    requires n < |kinds| && ProperTypes(kinds)
    ensures Numbered(kinds[n] + "_", x) in BusIdSet(WithBuses(buses, kinds, n, board))
       <==> Numbered(kinds[n] + "_", x) in BusIdSet(buses)
  {
    hide BusTypes, Numbered, WithBuses;
    var r, name := WithBuses(buses, kinds, n, board), Numbered(kinds[n] + "_", x);
    WithBusesShape(buses, kinds, n, board);
    assert r[..|buses|] == buses;
    forall b | b in buses ensures b in r {
      assert b in r[..|buses|];
    }
    forall j | |buses| <= j < |r| ensures r[j].id != name {
      var i := j - |buses|;
      assert NamedFor(r[|buses| + i].id, kinds[i]);
      var y: nat :| r[j].id == Numbered(kinds[i] + "_", y);
      TypesNameApart(kinds[i], kinds[n], y, x);
    }
    forall b | b in r && b.id == name ensures b in buses {
      var j :| 0 <= j < |r| && r[j] == b;
      assert r[..|buses|][j] == b;
    }
  }

  lemma TakenBefore(buses: seq<Bus>, kinds: seq<string>, n: nat, board: Board, x: nat)
    requires n < |kinds| && ProperTypes(kinds)
    ensures NamesTaken(WithBuses(buses, kinds, n, board), kinds[n], x) <==> NamesTaken(buses, kinds[n], x)
  {
    hide BusTypes, Numbered, WithBuses, ProperTypes, BusIdSet;
    forall y: nat
      ensures Numbered(kinds[n] + "_", y) in BusIdSet(WithBuses(buses, kinds, n, board))
         <==> Numbered(kinds[n] + "_", y) in BusIdSet(buses)
    {
      SeedingTakesNoOther(buses, kinds, n, board, y);
    }
  }

  /** The bus seeded n-th collides exactly when its type's names are taken at the start. */
  lemma SeedCollidesIff(buses: seq<Bus>, kinds: seq<string>, n: nat, board: Board)
    requires n < |kinds| && ProperTypes(kinds)
    ensures
      var before := WithBuses(buses, kinds, n, board);
      && (NextBusId(before, kinds[n]) in BusIdSet(before) <==> NamesTaken(buses, kinds[n], |buses| + n))
      && (NamesTaken(buses, kinds[n], |buses| + n) ==> NextBusId(before, kinds[n]) in BusIdSet(buses))
  {
    hide BusTypes, Numbered, WithBuses, ProperTypes, BusIdSet, NextBusId;
    var before := WithBuses(buses, kinds, n, board);
    WithBusesShape(buses, kinds, n, board);
    NextBusIdCollidesIff(before, kinds[n]);
    TakenBefore(buses, kinds, n, board, |buses| + n);
  }

  ghost predicate FreshlyExtends(buses: seq<Bus>, r: seq<Bus>)
  {
    DistinctBuses(r) && buses <= r && forall i :: |buses| <= i < |r| ==> r[i].id !in BusIdSet(buses)
  }

  lemma NothingSeeded(buses: seq<Bus>)
    requires DistinctBuses(buses)
    ensures FreshlyExtends(buses, buses)
  {
  }

  /** None of the types' names is taken when its turn comes. */
  ghost predicate AllFree(buses: seq<Bus>, kinds: seq<string>)
  {
    forall i :: 0 <= i < |kinds| ==> !NamesTaken(buses, kinds[i], |buses| + i)
  }

  lemma {:induction false} WithBusesKeeps(buses: seq<Bus>, kinds: seq<string>, n: nat, board: Board)
    requires n <= |kinds| && DistinctBuses(buses) && ProperTypes(kinds) && AllFree(buses, kinds)
    ensures FreshlyExtends(buses, WithBuses(buses, kinds, n, board))
  {
    hide SeedBus, DistinctBuses, ProperTypes, FreshlyExtends, NextBusId, NamesTaken, BusIdSet;
    if n == 0 {
      NothingSeeded(buses);
    } else {
      WithBusesKeeps(buses, kinds, n - 1, board);
      WithBusesStep(buses, kinds, n - 1, board);
      SeedCollidesIff(buses, kinds, n - 1, board);
      var before := WithBuses(buses, kinds, n - 1, board);
      hide WithBuses;
      SeedKind(before, kinds[n - 1], board);
      assert !NamesTaken(buses, kinds[n - 1], |buses| + (n - 1));
      FreshBusKeeps(buses, before, SeedBus(before, kinds[n - 1], board));
    }
  }

  lemma FreshBusKeeps(buses: seq<Bus>, before: seq<Bus>, b: Bus)
    requires FreshlyExtends(buses, before) && b.id !in BusIdSet(before)
    ensures FreshlyExtends(buses, before + [b])
  {
    forall i | 0 <= i < |before| ensures before[i].id in BusIdSet(before) {
    }
    forall x | x in buses ensures x.id in BusIdSet(before) {
      assert x in before[..|buses|];
    }
  }

  /** A taken name is given out again, to a bus beside the one that had it. */
  lemma TakenMeansTwice(buses: seq<Bus>, kinds: seq<string>, n: nat, board: Board) returns (i: nat, j: nat)
    requires n < |kinds| && ProperTypes(kinds) && NamesTaken(buses, kinds[n], |buses| + n)
    ensures
      var r := WithBuses(buses, kinds, |kinds|, board);
      i < |buses| <= j < |r| && buses <= r && r[i].id == r[j].id
  {
    hide SeedBus, ProperTypes, NextBusId, NamesTaken, WithBuses;
    SeedCollidesIff(buses, kinds, n, board);
    WithBusesStep(buses, kinds, n, board);
    var before := WithBuses(buses, kinds, n, board);
    SeedKind(before, kinds[n], board);
    WithBusesShape(buses, kinds, n, board);
    WithBusesShape(buses, kinds, |kinds|, board);
    WithBusesPrefix(buses, kinds, n + 1, |kinds|, board);
    var r := WithBuses(buses, kinds, |kinds|, board);
    j := |buses| + n;
    assert r[..|before| + 1][|before|] == r[j];
    i :| 0 <= i < |buses| && buses[i].id == r[j].id;
    assert r[..|buses|] == buses;
  }

  lemma {:induction false} WithBusesPrefix(buses: seq<Bus>, kinds: seq<string>, m: nat, n: nat, board: Board)
    requires m <= n <= |kinds|
    ensures WithBuses(buses, kinds, m, board) <= WithBuses(buses, kinds, n, board)
  {
    hide SeedBus;
    if m < n {
      WithBusesPrefix(buses, kinds, m, n - 1, board);
      WithBusesStep(buses, kinds, n - 1, board);
      hide WithBuses;
    }
  }

  function SeedTypes(env: Env, buses: seq<Bus>, entry: LibComponent): seq<string>
  {
    env.order(NeededBusTypes(entry.pins) - BusKinds(buses))
  }

  lemma SeedTypesAreProper(env: Env, buses: seq<Bus>, entry: LibComponent)
    requires Enumerates(env.order)
    ensures ProperTypes(SeedTypes(env, buses, entry)) && Seedable(buses, SeedTypes(env, buses, entry), 0)
  {
    var missing := NeededBusTypes(entry.pins) - BusKinds(buses);
    var kinds := env.order(missing);
    forall i | 0 <= i < |kinds| ensures kinds[i] in BusTypes() && kinds[i] in MissingTypes(buses) {
      assert kinds[i] in missing;
    }
  }

  lemma PrepareBusesKeeps(env: Env, buses: seq<Bus>, entry: LibComponent, board: Board)
    requires Enumerates(env.order) && DistinctBuses(buses) && AllFree(buses, SeedTypes(env, buses, entry))
    ensures FreshlyExtends(buses, PrepareBuses(env, buses, entry, board))
    ensures Load(PrepareBuses(env, buses, entry, board)) == Load(buses)
  {
    hide WithBuses, Load, MissingTypes, FreshlyExtends, AllFree, Seedable, ProperTypes, Enumerates;
    var kinds := SeedTypes(env, buses, entry);
    SeedTypesAreProper(env, buses, entry);
    WithBusesLoad(buses, kinds, |kinds|, board);
    WithBusesKeeps(buses, kinds, |kinds|, board);
  }

  /** What a caller can check before adding a part: no type the part needs and the design lacks
      has all its names taken. */
  ghost predicate SeedsFresh(env: Env, d: Design, libraryId: string)
    requires libraryId in env.library.components
  {
    BoardOf(d, env.library).Some? ==> AllFree(d.buses, SeedTypes(env, d.buses, env.library.components[libraryId]))
  }

  /** Room for 999 is enough. */
  lemma RoomMeansFresh(env: Env, d: Design, libraryId: string)
    requires libraryId in env.library.components && Enumerates(env.order) && Load(d.buses) <= 999
    ensures SeedsFresh(env, d, libraryId)
  {
    var kinds := SeedTypes(env, d.buses, env.library.components[libraryId]);
    SeedTypesAreProper(env, d.buses, env.library.components[libraryId]);
    hide BusTypes, NamesTaken, Enumerates, MissingTypes;
    forall i | 0 <= i < |kinds| ensures !NamesTaken(d.buses, kinds[i], |d.buses| + i) {
      assert kinds[i] in MissingTypes(d.buses);
      FewBusesLeaveAName(d.buses, kinds[i], |d.buses| + i);
    }
  }

  lemma DefaultResolves(pin: LibPin, rails: seq<PowerRail>, buses: seq<Bus>, entry: LibComponent)
    ensures BusResolves(DefaultTarget(pin, rails, buses, entry), buses)
  {
  }

  lemma {:induction false} SeedsAnchored(
    id: string, pins: seq<LibPin>, n: nat, rails: seq<PowerRail>, buses: seq<Bus>, entry: LibComponent)
    requires n <= |pins|
    ensures forall k :: 0 <= k < n ==>
      var c := Seeds(id, pins, n, rails, buses, entry)[k];
      && c.componentId == id && c.role == pins[k].role && BusResolves(c.target, buses)
      && c.target == DefaultTarget(pins[k], rails, buses, entry)
  {
    hide DefaultTarget, BusResolves;
    if n > 0 {
      SeedsAnchored(id, pins, n - 1, rails, buses, entry);
      DefaultResolves(pins[n - 1], rails, buses, entry);
    }
  }

  lemma AppendedKeeps(env: Env, d: Design, libraryId: string, hint: string)
    requires libraryId in env.library.components && Enumerates(env.order) && Inv(d) && SeedsFresh(env, d, libraryId)
    ensures
      var a := Appended(env, d, libraryId, hint);
      && Inv(a.design) && Load(a.design.buses) <= Load(d.buses) && a.id !in IdSet(d.components)
      && d.buses <= a.design.buses && d.connections <= a.design.connections
      && (forall i :: |d.buses| <= i < |a.design.buses| ==> a.design.buses[i].id !in BusIdSet(d.buses))
  {
    var a := Appended(env, d, libraryId, hint);
    var entry := env.library.components[libraryId];
    var board := BoardOf(d, env.library);
    if board.Some? {
      PrepareBusesKeeps(env, d.buses, entry, board.value);
    }
    var rails := if board.Some? then board.value.rails else [];
    SeedsAnchored(a.id, entry.pins, |entry.pins|, rails, a.design.buses, entry);
    forall c | c in a.design.connections ensures Anchored(c, a.design) {
      if c in d.connections {
        assert Anchored(c, d);
        assert forall b | b in d.buses :: b in a.design.buses;
        assert forall x | x in d.components :: x in a.design.components;
      } else {
        assert a.design.components[|d.components|] in a.design.components;
      }
    }
    forall i | 0 <= i < |d.components| ensures d.components[i].id in IdSet(d.components) {
    }
  }

  lemma RenameKeeps(d: Design, from: string, id: string)
    requires Inv(d) && id !in IdSet(d.components) && from in IdSet(d.components)
    ensures Inv(RenameInstance(d, from, id)) && RenameInstance(d, from, id).buses == d.buses
  {
    var r := RenameInstance(d, from, id);
    forall i | 0 <= i < |d.components| ensures d.components[i].id in IdSet(d.components) {
    }
    forall c | c in r.connections ensures Anchored(c, r) {
      var k :| 0 <= k < |r.connections| && r.connections[k] == c;
      assert Anchored(d.connections[k], d);
      var i :| 0 <= i < |d.components| && d.components[i].id == d.connections[k].componentId;
      assert r.components[i] in r.components;
    }
  }

  lemma AddWithConnectionsKeeps(env: Env, d: Design, libraryId: string, hint: string)
    requires libraryId in env.library.components && Enumerates(env.order) && Inv(d) && SeedsFresh(env, d, libraryId)
    ensures
      var a := AddWithConnections(env, d, libraryId, hint);
      Inv(a.design) && Load(a.design.buses) <= Load(d.buses)
  {
    var a := Appended(env, d, libraryId, hint);
    AppendedKeeps(env, d, libraryId, hint);
    if env.refuses(a.design, a.id) {
      var id := SuffixedId(IdSet(d.components), a.id);
      assert id != a.id by {
        assert |id| > |a.id|;
      }
      assert a.design.components[|d.components|] in a.design.components;
      assert id !in IdSet(a.design.components) by {
        forall c | c in a.design.components ensures c.id != id {
          assert c in d.components ==> c.id in IdSet(d.components);
        }
      }
      RenameKeeps(a.design, a.id, id);
    }
  }

  // ------------------------------------------------- dropping, solving, adopting

  lemma {:induction false} KeepBusesExactly(buses: seq<Bus>, drop: set<string>)
    ensures forall b :: b in KeepBuses(buses, drop) <==> b in buses && b.id !in drop
  {
    if buses != [] {
      assert buses == buses[..|buses| - 1] + [buses[|buses| - 1]];
      KeepBusesExactly(buses[..|buses| - 1], drop);
    }
  }

  lemma {:induction false} KeepBusesDistinct(buses: seq<Bus>, drop: set<string>)
    requires DistinctBuses(buses)
    ensures DistinctBuses(KeepBuses(buses, drop))
  {
    if buses != [] {
      var last := |buses| - 1;
      KeepBusesDistinct(buses[..last], drop);
      KeepBusesExactly(buses[..last], drop);
      forall b | b in buses[..last] ensures b.id != buses[last].id {
        var i :| 0 <= i < last && buses[i] == b;
      }
    }
  }

  /** A dropped bus frees its own place and leaves at most its type to be seeded again. */
  lemma {:induction false} KeepBusesLoad(buses: seq<Bus>, drop: set<string>)
    ensures MissingTypes(buses) <= MissingTypes(KeepBuses(buses, drop))
    ensures Load(KeepBuses(buses, drop)) <= Load(buses)
  {
    hide BusTypes;
    if buses != [] {
      var rest, b := buses[..|buses| - 1], buses[|buses| - 1];
      assert buses == rest + [b];
      KeepBusesLoad(rest, drop);
      OneMoreBus(rest, b);
      OneMoreBus(KeepBuses(rest, drop), b);
    }
  }

  lemma WithoutBusesKeeps(d: Design, drop: set<string>)
    requires Inv(d)
    ensures Inv(WithoutBuses(d, drop)) && Load(WithoutBuses(d, drop).buses) <= Load(d.buses)
  {
    var r := WithoutBuses(d, drop);
    KeepBusesExactly(d.buses, drop);
    KeepBusesDistinct(d.buses, drop);
    KeepBusesLoad(d.buses, drop);
    forall c | c in r.connections ensures Anchored(c, r) {
      var k :| 0 <= k < |r.connections| && r.connections[k] == c;
      assert Anchored(d.connections[k], d);
    }
  }

  lemma DecisionResolves(ctx: Context, c: Connection, used: set<string>, usedEx: set<Slot>)
    ensures
      var o := Decide(ctx, c, used, usedEx);
      o.Bind? && o.target.OnBus? ==> o.target.busId in BusIdSet(ctx.buses)
  {
  }

  lemma SolvedIsAnchored(d: Design, library: Library, j: nat)
    requires Inv(d) && j < |d.connections|
    ensures Anchored(Solve(d, library).design.connections[j], d)
  {
    assert Anchored(d.connections[j], d);
    if BoardOf(d, library).Some? {
      var ctx := ContextOf(d, library, BoardOf(d, library).value);
      var st := Locked(d, ctx);
      SolvedConnection(d, library, BoardOf(d, library).value, j);
      DecisionResolves(ctx, st.connections[j], After(ctx, st, j).used, After(ctx, st, j).usedEx);
      hide Decide, After, Locked;
    }
  }

  /** The solver binds a bus target to a bus of the design. */
  lemma SolveKeeps(d: Design, library: Library)
    requires Inv(d)
    ensures Inv(Solve(d, library).design) && Solve(d, library).design.buses == d.buses
  {
    var out := Solve(d, library).design;
    SolveFrame(d, library);
    forall c | c in out.connections ensures Anchored(c, out) {
      var j :| 0 <= j < |out.connections| && out.connections[j] == c;
      SolvedIsAnchored(d, library, j);
    }
  }

  lemma {:induction false} TargetOfIsOne(connections: seq<Connection>, id: string, role: string)
    ensures
      var t := TargetOf(connections, id, role);
      && (t.Some? ==> exists c :: c in connections && c.componentId == id && c.role == role && c.target == t.value)
      && (t.None? ==> forall c | c in connections :: !(c.componentId == id && c.role == role))
  {
    if connections != [] {
      var last := |connections| - 1;
      assert connections == connections[..last] + [connections[last]];
      TargetOfIsOne(connections[..last], id, role);
    }
  }

  lemma AdoptKeeps(d: Design, id: string, solved: Design)
    requires Inv(d) && Inv(solved) && solved.buses == d.buses
    ensures Inv(Adopted(d, id, solved.connections))
  {
    var r := Adopted(d, id, solved.connections);
    forall c | c in r.connections ensures Anchored(c, r) {
      var k :| 0 <= k < |r.connections| && r.connections[k] == c;
      assert Anchored(d.connections[k], d);
      TargetOfIsOne(solved.connections, id, d.connections[k].role);
      assert forall x | x in solved.connections :: Anchored(x, solved);
    }
  }

  lemma AddComponentKeeps(env: Env, d: Design, libraryId: string, hint: string)
    requires libraryId in env.library.components && Enumerates(env.order) && Inv(d) && SeedsFresh(env, d, libraryId)
    ensures
      var r := AddKnown(env, d, libraryId, hint).design;
      Inv(r) && Load(r.buses) <= Load(d.buses)
  {
    var a := AddWithConnections(env, d, libraryId, hint);
    AddWithConnectionsKeeps(env, d, libraryId, hint);
    var drop := EmptyBuses(BusIdSet(d.buses), a.design.buses);
    WithoutBusesKeeps(a.design, drop);
    var seeded := WithoutBuses(a.design, drop);
    SolveKeeps(seeded, env.library);
    AdoptKeeps(seeded, a.id, Solve(seeded, env.library).design);
  }

  lemma {:induction false} TwiceIsKept(buses: seq<Bus>, drop: set<string>, i: nat, j: nat)
    requires i < j < |buses| && buses[i].id == buses[j].id && buses[j].id !in drop
    ensures !DistinctBuses(KeepBuses(buses, drop))
  {
    var last := |buses| - 1;
    if j < last {
      TwiceIsKept(buses[..last], drop, i, j);
      var kept, rest := KeepBuses(buses, drop), KeepBuses(buses[..last], drop);
      var x, y :| 0 <= x < y < |rest| && rest[x].id == rest[y].id;
      assert kept[x].id == kept[y].id;
    } else {
      KeepBusesExactly(buses[..last], drop);
      var rest := KeepBuses(buses[..last], drop);
      assert buses[..last][i] in rest;
      var x :| 0 <= x < |rest| && rest[x] == buses[i];
      assert KeepBuses(buses, drop)[x].id == KeepBuses(buses, drop)[|rest|].id;
    }
  }

  lemma AddsTheseBuses(env: Env, d: Design, libraryId: string, hint: string) returns (drop: set<string>)
    requires libraryId in env.library.components
    ensures drop !! BusIdSet(d.buses)
    ensures AddKnown(env, d, libraryId, hint).design.buses
         == KeepBuses(Appended(env, d, libraryId, hint).design.buses, drop)
  {
    hide Appended, Solve;
    var a := AddWithConnections(env, d, libraryId, hint);
    assert a.design.buses == Appended(env, d, libraryId, hint).design.buses;
    drop := EmptyBuses(BusIdSet(d.buses), a.design.buses);
    assert WithoutBuses(a.design, drop).buses == KeepBuses(a.design.buses, drop);
  }

  /** Adding a part keeps the invariant exactly when no bus it seeds finds its names taken. */
  lemma AddKeepsIff(env: Env, d: Design, libraryId: string, hint: string)
    requires libraryId in env.library.components && Enumerates(env.order) && Inv(d)
    ensures Inv(AddKnown(env, d, libraryId, hint).design) <==> SeedsFresh(env, d, libraryId)
  {
    hide AddKnown, Appended, Enumerates, NamesTaken, DistinctComponents;
    if SeedsFresh(env, d, libraryId) {
      hide Inv;
      AddComponentKeeps(env, d, libraryId, hint);
    } else {
      AddsTwice(env, d, libraryId, hint);
      var drop := AddsTheseBuses(env, d, libraryId, hint);
      var appended := Appended(env, d, libraryId, hint).design.buses;
      var i, j :| 0 <= i < |d.buses| <= j < |appended| && appended[i].id == appended[j].id;
      assert appended[..|d.buses|][i] == d.buses[i] && d.buses[i].id in BusIdSet(d.buses);
      TwiceIsKept(appended, drop, i, j);
    }
  }

  lemma AddsTwice(env: Env, d: Design, libraryId: string, hint: string)
    requires libraryId in env.library.components && Enumerates(env.order) && !SeedsFresh(env, d, libraryId)
    ensures
      var appended := Appended(env, d, libraryId, hint).design.buses;
      && d.buses <= appended
      && exists i, j :: 0 <= i < |d.buses| <= j < |appended| && appended[i].id == appended[j].id
  {
    var entry := env.library.components[libraryId];
    var board := BoardOf(d, env.library).value;
    var kinds := SeedTypes(env, d.buses, entry);
    SeedTypesAreProper(env, d.buses, entry);
    hide Enumerates, NamesTaken, ProperTypes, WithBuses, Seeds;
    var n :| 0 <= n < |kinds| && NamesTaken(d.buses, kinds[n], |d.buses| + n);
    var i, j := TakenMeansTwice(d.buses, kinds, n, board);
    assert Appended(env, d, libraryId, hint).design.buses == WithBuses(d.buses, kinds, |kinds|, board);
  }

  // ------------------------------------------------------------- other edits

  lemma {:induction false} StampIds(components: seq<Component>, id: string, m: ModuleRef)
    ensures |Stamp(components, id, m)| == |components|
    ensures forall i :: 0 <= i < |components| ==> Stamp(components, id, m)[i].id == components[i].id
  {
    if components != [] && components[0].id != id {
      StampIds(components[1..], id, m);
    }
  }

  lemma StampKeeps(d: Design, id: string, m: ModuleRef)
    requires Inv(d)
    ensures Inv(d.(components := Stamp(d.components, id, m)))
  {
    var r := d.(components := Stamp(d.components, id, m));
    StampIds(d.components, id, m);
    forall c | c in r.connections ensures Anchored(c, r) {
      assert Anchored(c, d);
      var i :| 0 <= i < |d.components| && d.components[i].id == c.componentId;
      assert r.components[i] in r.components;
    }
  }

  lemma {:induction false} InsertKeeps(env: Env, d: Design, parts: seq<ModulePart>, n: nat, m: ModuleRef)
    requires Enumerates(env.order) && Inv(d) && n <= |parts| && Load(d.buses) <= 999
    ensures
      var r := InsertParts(env, d, parts, n, m).0;
      Inv(r) && Load(r.buses) <= Load(d.buses)
  {
    hide BusTypes, Load;
    if n > 0 {
      InsertKeeps(env, d, parts, n - 1, m);
      InsertPartKeeps(env, InsertParts(env, d, parts, n - 1, m).0, parts[n - 1], m);
      hide InsertPart, Inv;
    }
  }

  lemma InsertPartKeeps(env: Env, d: Design, part: ModulePart, m: ModuleRef)
    requires Enumerates(env.order) && Inv(d) && Load(d.buses) <= 999
    ensures
      var r := InsertPart(env, d, part, m).0;
      Inv(r) && Load(r.buses) <= Load(d.buses)
  {
    hide BusTypes, Load, SeedsFresh;
    if part.libraryId in env.library.components {
      RoomMeansFresh(env, d, part.libraryId);
      AddWithConnectionsKeeps(env, d, part.libraryId, part.hint);
      var a := AddWithConnections(env, d, part.libraryId, part.hint);
      StampKeeps(a.design, a.id, m);
    }
  }

  lemma {:induction false} KeepComponentsExactly(components: seq<Component>, id: string)
    ensures forall c :: c in KeepComponents(components, id) <==> c in components && c.id != id
    ensures DistinctComponents(components) ==> DistinctComponents(KeepComponents(components, id))
  {
    if components != [] {
      var last := |components| - 1;
      assert components == components[..last] + [components[last]];
      KeepComponentsExactly(components[..last], id);
      if DistinctComponents(components) {
        forall c | c in components[..last] ensures c.id != components[last].id {
          var i :| 0 <= i < last && components[i] == c;
        }
      }
    }
  }

  lemma {:induction false} KeepConnectionsExactly(connections: seq<Connection>, id: string)
    ensures forall c :: c in KeepConnections(connections, id) <==> c in connections && c.componentId != id
  {
    if connections != [] {
      var last := |connections| - 1;
      assert connections == connections[..last] + [connections[last]];
      KeepConnectionsExactly(connections[..last], id);
    }
  }

  lemma RemoveKeeps(d: Design, id: string)
    requires Inv(d) && RemoveComponent(d, id).Some?
    ensures Inv(RemoveComponent(d, id).value)
  {
    var r := RemoveComponent(d, id).value;
    KeepComponentsExactly(d.components, id);
    KeepConnectionsExactly(d.connections, id);
    forall c | c in r.connections ensures Anchored(c, r) {
      assert Anchored(c, d);
      var x :| x in d.components && x.id == c.componentId;
      assert x in r.components;
    }
  }

  lemma NewBusKeeps(d: Design, library: Library, id: string, kind: string, fields: map<string, string>)
    requires Inv(d) && AddBusTo(d, library, id, kind, fields).Some?
    ensures Inv(AddBusTo(d, library, id, kind, fields).value)
  {
    var r := AddBusTo(d, library, id, kind, fields).value;
    assert r.buses[..|d.buses|] == d.buses;
    forall i | 0 <= i < |d.buses| ensures d.buses[i].id in BusIdSet(d.buses) {
    }
    forall c | c in r.connections ensures Anchored(c, r) {
      assert Anchored(c, d);
      assert forall b | b in d.buses :: b in r.buses;
    }
  }

  // -------------------------------------------------------------- every run

  /** Adding a bus by hand is the only edit that can raise the load, by one. */
  function HandMade(e: Edit): nat
  {
    if e.NewBus? then 1 else 0
  }

  function HandMadeIn(edits: seq<Edit>): nat
  {
    if edits == [] then 0 else HandMadeIn(edits[..|edits| - 1]) + HandMade(edits[|edits| - 1])
  }

  lemma ApplyKeeps(env: Env, d: Design, e: Edit)
    requires Enumerates(env.order) && Inv(d) && Load(d.buses) <= 999
    ensures Inv(Apply(env, d, e)) && Load(Apply(env, d, e).buses) <= Load(d.buses) + HandMade(e)
  {
    hide Inv, Load, SeedsFresh;
    match e
    case Add(libraryId, hint) =>
      if AddComponent(env, d, libraryId, hint).Some? {
        RoomMeansFresh(env, d, libraryId);
        AddComponentKeeps(env, d, libraryId, hint);
      }
    case Insert(m, parts) => InsertKeeps(env, d, parts, |parts|, m);
    case Remove(id) =>
      if RemoveComponent(d, id).Some? {
        RemoveKeeps(d, id);
      }
    case NewBus(id, kind, fields) =>
      if AddBusTo(d, env.library, id, kind, fields).Some? {
        NewBusKeeps(d, env.library, id, kind, fields);
        var r := AddBusTo(d, env.library, id, kind, fields).value;
        OneMoreBus(d.buses, r.buses[|d.buses|]);
        assert r.buses == d.buses + [r.buses[|d.buses|]];
      }
    case SolveAll => SolveKeeps(d, env.library);
  }

  /** Over every run of edits: ids stay distinct, every connection has its owner, every bus
      target is empty or names a bus. Buses added by hand are the only ones to count. */
  lemma {:induction false} EveryRunKeeps(env: Env, d: Design, edits: seq<Edit>)
    requires Enumerates(env.order) && Inv(d) && Load(d.buses) + HandMadeIn(edits) <= 999
    ensures Inv(Run(env, d, edits)) && Load(Run(env, d, edits).buses) <= Load(d.buses) + HandMadeIn(edits)
    decreases |edits|
  {
    if edits != [] {
      EveryRunKeeps(env, d, edits[..|edits| - 1]);
      ApplyKeeps(env, Run(env, d, edits[..|edits| - 1]), edits[|edits| - 1]);
      hide Inv, Load, Apply;
    }
  }
}
