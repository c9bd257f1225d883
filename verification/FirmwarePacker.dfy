/** First-fit packing of the library's LoRaWAN parts into build designs
    (scripts/build_lorawan_firmware.py:51-114). */
module FirmwarePacker {
  import opened Options

  datatype Pin = Pin(kind: string, parent: Option<string>)

  /** A `lorawan:` block: its payload field names for the part's one instance, and whether it
      asks for a UART. */
  datatype Radio = Radio(fields: set<string>, uart: bool)

  datatype Part = Part(id: string, radio: Option<Radio>, pins: seq<Pin>)

  /** The library's components, sorted by id. */
  type Lib = seq<Part>

  datatype Group = Group(names: set<string>, uarts: nat, members: seq<string>)

  const UARTS := 2

  function Find(lib: Lib, id: string): (r: Option<Part>)
    ensures r.Some? ==> r.value in lib && r.value.id == id
    ensures r.None? ==> forall p | p in lib :: p.id != id
  {
    if lib == [] then None else if lib[0].id == id then Some(lib[0]) else Find(lib[1..], id)
  }

  /** The parent of the first hub pin. */
  function HubOf(pins: seq<Pin>): Option<string>
  {
    if pins == [] then None
    else if pins[0].kind == "hub_ref" then pins[0].parent
    else HubOf(pins[1..])
  }

  predicate Hosts(lib: Lib, id: string)
  {
    exists p, pin :: p in lib && pin in p.pins && pin.kind == "hub_ref" && pin.parent == Some(id)
  }

  /** Whether the part is packed in its own right: it has a block, is no bare hub, and the
      board does not already report one of its fields. */
  predicate Packs(lib: Lib, board: set<string>, p: Part)
  {
    p.radio.Some? && (HubOf(p.pins).Some? || !Hosts(lib, p.id)) && p.radio.value.fields !! board
  }

  function Needs(lib: Lib, id: string): nat
  {
    var p := Find(lib, id);
    if p.Some? && p.value.radio.Some? && p.value.radio.value.uart then 1 else 0
  }

  function Uarts(lib: Lib, ids: seq<string>): nat
  {
    if ids == [] then 0 else Uarts(lib, ids[..|ids| - 1]) + Needs(lib, ids[|ids| - 1])
  }

  /** A part goes in with its hub. */
  function Unit(p: Part): seq<string>
  {
    if HubOf(p.pins).None? then [p.id] else [HubOf(p.pins).value, p.id]
  }

  function NewUarts(lib: Lib, g: Group, p: Part): int
  {
    var hub := HubOf(p.pins);
    Uarts(lib, Unit(p)) - if hub.Some? && hub.value in g.members then Needs(lib, hub.value) else 0
  }

  /** What the library must provide: distinct ids, and for each part that is packed and on a
      hub a hub with a block of its own that is not itself on a hub. Parts the script passes
      over may be anything. */
  ghost predicate Sound(lib: Lib, board: set<string>)
  {
    && (forall i, j :: 0 <= i < j < |lib| ==> lib[i].id != lib[j].id)
    && (forall p | p in lib && OnHub(lib, board, p) :: HubUsable(lib, p))
  }

  /** Packed, and on a hub. */
  predicate OnHub(lib: Lib, board: set<string>, p: Part)
  {
    Packs(lib, board, p) && HubOf(p.pins).Some?
  }

  predicate HubUsable(lib: Lib, p: Part)
    requires HubOf(p.pins).Some?
  {
    var hub := Find(lib, HubOf(p.pins).value);
    hub.Some? && hub.value.radio.Some? && HubOf(hub.value.pins).None?
  }

  function Missing(unit: seq<string>, members: seq<string>): seq<string>
  {
    if unit == [] then []
    else Missing(unit[..|unit| - 1], members) + if unit[|unit| - 1] in members then [] else [unit[|unit| - 1]]
  }

  // ----------------------------------------------------------------- packing

  predicate Fits(lib: Lib, g: Group, p: Part)
    requires p.radio.Some?
  {
    g.names !! p.radio.value.fields && g.uarts + NewUarts(lib, g, p) <= UARTS
  }

  lemma NewUartsNatural(lib: Lib, g: Group, p: Part)
    ensures NewUarts(lib, g, p) >= 0
  {
    UnitUarts(lib, p);
  }

  lemma UnitUarts(lib: Lib, p: Part)
    ensures Uarts(lib, Unit(p)) == Needs(lib, p.id) + if HubOf(p.pins).Some? then Needs(lib, HubOf(p.pins).value) else 0
  {
    UartsOfOne(lib, p.id);
    if HubOf(p.pins).Some? {
      var hub := HubOf(p.pins).value;
      UartsOfOne(lib, hub);
      UartsAppend(lib, [hub], [p.id]);
      assert [hub, p.id] == [hub] + [p.id];
    }
  }

  lemma UartsOfOne(lib: Lib, id: string)
    ensures Uarts(lib, [id]) == Needs(lib, id)
  {
    assert [id][..0] == [];
  }

  lemma {:induction false} UartsAppend(lib: Lib, a: seq<string>, b: seq<string>)
    ensures Uarts(lib, a + b) == Uarts(lib, a) + Uarts(lib, b)
  {
    if b == [] {
      assert a + b == a;
    } else {
      UartsAppend(lib, a, b[..|b| - 1]);
      assert (a + b)[..|a + b| - 1] == a + b[..|b| - 1];
    }
  }

  function Join(lib: Lib, g: Group, p: Part): Group
    requires p.radio.Some?
  {
    NewUartsNatural(lib, g, p);
    Group(g.names + p.radio.value.fields, g.uarts + NewUarts(lib, g, p), g.members + Missing(Unit(p), g.members))
  }

  function Start(lib: Lib, p: Part): Group
    requires p.radio.Some?
  {
    Group(p.radio.value.fields, Uarts(lib, Unit(p)), Unit(p))
  }

  /** The first group the part fits, |groups| when none. */
  function FirstFit(lib: Lib, groups: seq<Group>, p: Part): (k: nat)
    requires p.radio.Some?
    ensures k <= |groups| && forall j :: 0 <= j < k ==> !Fits(lib, groups[j], p)
    ensures k < |groups| ==> Fits(lib, groups[k], p)
  {
    if groups == [] || Fits(lib, groups[0], p) then 0 else 1 + FirstFit(lib, groups[1..], p)
  }

  function PackOne(lib: Lib, groups: seq<Group>, p: Part): seq<Group>
    requires p.radio.Some?
  {
    var k := FirstFit(lib, groups, p);
    if k < |groups| then groups[k := Join(lib, groups[k], p)] else groups + [Start(lib, p)]
  }

  function Pack(lib: Lib, board: set<string>, n: nat): seq<Group>
    requires n <= |lib|
  {
    if n == 0 then []
    else if Packs(lib, board, lib[n - 1]) then PackOne(lib, Pack(lib, board, n - 1), lib[n - 1])
    else Pack(lib, board, n - 1)
  }

  /** The grouping half of `component_designs`. */
  method ComponentGroups(lib: Lib, board: set<string>) returns (groups: seq<Group>)
    ensures groups == Pack(lib, board, |lib|)
  {
    hide Uarts, NewUarts, Unit, Missing, Hosts, HubOf;
    groups := [];
    for n := 0 to |lib|
      invariant groups == Pack(lib, board, n)
    {
      var p := lib[n];
      if p.radio.None? { continue; }
      if HubOf(p.pins).None? && Hosts(lib, p.id) { continue; }
      if !(p.radio.value.fields !! board) { continue; }
      groups := PlaceFirst(lib, groups, p);
    }
  }

  method PlaceFirst(lib: Lib, groups: seq<Group>, p: Part) returns (r: seq<Group>)
    requires p.radio.Some?
    ensures r == PackOne(lib, groups, p)
  {
    var names, unit, hub := p.radio.value.fields, Unit(p), HubOf(p.pins);
    var uarts := Uarts(lib, unit);
    for k := 0 to |groups|
      invariant FirstFit(lib, groups, p) == k + FirstFit(lib, groups[k..], p)
    {
      var g := groups[k];
      var newUarts := uarts - if hub.Some? && hub.value in g.members then Needs(lib, hub.value) else 0;
      if g.names !! names && g.uarts + newUarts <= UARTS {
        NewUartsNatural(lib, g, p);
        return groups[k := Group(g.names + names, g.uarts + newUarts, g.members + Missing(unit, g.members))];
      }
    }
    return groups + [Group(names, uarts, unit)];
  }

  // -------------------------------------------------------------- invariants

  /** The i-th part of the library, packed in its own right into this group. */
  predicate In(lib: Lib, board: set<string>, g: Group, i: nat)
    requires i < |lib|
  {
    Packs(lib, board, lib[i]) && lib[i].id in g.members
  }

  ghost predicate NamesExact(lib: Lib, board: set<string>, g: Group, n: nat)
    requires n <= |lib|
  {
    && (forall i | 0 <= i < n && In(lib, board, g, i) :: lib[i].radio.value.fields <= g.names)
    && (forall x | x in g.names :: exists i :: 0 <= i < n && In(lib, board, g, i) && x in lib[i].radio.value.fields)
  }

  ghost predicate NamesDisjoint(lib: Lib, board: set<string>, g: Group, n: nat)
    requires n <= |lib|
  {
    forall i, j | 0 <= i < j < n && In(lib, board, g, i) && In(lib, board, g, j) ::
      lib[i].radio.value.fields !! lib[j].radio.value.fields
  }

  /** Every member is a packed part or the hub of one. */
  ghost predicate MembersKnown(lib: Lib, board: set<string>, g: Group, n: nat)
    requires n <= |lib|
  {
    forall m | m in g.members ::
      exists i :: 0 <= i < n && In(lib, board, g, i) && (lib[i].id == m || HubOf(lib[i].pins) == Some(m))
  }

  ghost predicate HubsIncluded(lib: Lib, board: set<string>, g: Group, n: nat)
    requires n <= |lib|
  {
    forall i | 0 <= i < n && In(lib, board, g, i) && HubOf(lib[i].pins).Some? :: HubOf(lib[i].pins).value in g.members
  }

  predicate Distinct(s: seq<string>)
  {
    forall i, j :: 0 <= i < j < |s| ==> s[i] != s[j]
  }

  ghost predicate GroupOk(lib: Lib, board: set<string>, g: Group, n: nat)
    requires n <= |lib|
  {
    && Distinct(g.members)
    && g.uarts == Uarts(lib, g.members) <= UARTS
    && NamesExact(lib, board, g, n) && NamesDisjoint(lib, board, g, n)
    && MembersKnown(lib, board, g, n) && HubsIncluded(lib, board, g, n)
  }

  lemma HubOfIsHosted(lib: Lib, p: Part, pins: seq<Pin>)
    requires p in lib && HubOf(pins).Some? && forall pin | pin in pins :: pin in p.pins
    ensures Hosts(lib, HubOf(pins).value)
  {
    if pins[0].kind == "hub_ref" {
      assert pins[0] in p.pins;
    } else {
      HubOfIsHosted(lib, p, pins[1..]);
    }
  }

  /** A hub is never packed in its own right. */
  lemma HubsAreNotPacked(lib: Lib, board: set<string>, p: Part, q: Part)
    requires Sound(lib, board) && p in lib && Packs(lib, board, p) && HubOf(p.pins) == Some(q.id) && q in lib
    ensures !Packs(lib, board, q)
  {
    HubOfIsHosted(lib, p, p.pins);
    var hub := Find(lib, q.id);
    assert OnHub(lib, board, p) && HubUsable(lib, p);
    assert hub.value == q;
  }

  /** A part not reached yet is in no group. */
  lemma NotYetIn(lib: Lib, board: set<string>, g: Group, n: nat)
    requires Sound(lib, board) && n < |lib| && MembersKnown(lib, board, g, n) && Packs(lib, board, lib[n])
    ensures lib[n].id !in g.members
  {
    if lib[n].id in g.members {
      var i :| 0 <= i < n && In(lib, board, g, i) && (lib[i].id == lib[n].id || HubOf(lib[i].pins) == Some(lib[n].id));
      if HubOf(lib[i].pins) == Some(lib[n].id) {
        HubsAreNotPacked(lib, board, lib[i], lib[n]);
      }
    }
  }

  /** The next part leaves a group alone when it is packed elsewhere or not at all. */
  lemma OthersStay(lib: Lib, board: set<string>, g: Group, n: nat)
    requires Sound(lib, board) && n < |lib| && GroupOk(lib, board, g, n)
    ensures GroupOk(lib, board, g, n + 1)
  {
    if Packs(lib, board, lib[n]) {
      NotYetIn(lib, board, g, n);
    }
    assert !In(lib, board, g, n);
    OthersStayNamed(lib, board, g, n);
    OthersStayMembers(lib, board, g, n);
    hide Packs, Uarts, HubOf, Sound, NamesExact, NamesDisjoint, MembersKnown, HubsIncluded, Distinct;
  }

  lemma OthersStayNamed(lib: Lib, board: set<string>, g: Group, n: nat)
    requires n < |lib| && NamesExact(lib, board, g, n) && NamesDisjoint(lib, board, g, n) && !In(lib, board, g, n)
    ensures NamesExact(lib, board, g, n + 1) && NamesDisjoint(lib, board, g, n + 1)
  {
    hide Hosts, HubOf;
    forall x | x in g.names
      ensures exists i :: 0 <= i < n + 1 && In(lib, board, g, i) && x in lib[i].radio.value.fields
    {
      var i :| 0 <= i < n && In(lib, board, g, i) && x in lib[i].radio.value.fields;
      assert i < n + 1;
    }
  }

  lemma OthersStayMembers(lib: Lib, board: set<string>, g: Group, n: nat)
    requires n < |lib| && MembersKnown(lib, board, g, n) && HubsIncluded(lib, board, g, n) && !In(lib, board, g, n)
    ensures MembersKnown(lib, board, g, n + 1) && HubsIncluded(lib, board, g, n + 1)
  {
    hide Packs, HubOf;
    forall m | m in g.members
      ensures exists i :: 0 <= i < n + 1 && In(lib, board, g, i) && (lib[i].id == m || HubOf(lib[i].pins) == Some(m))
    {
      var i :| 0 <= i < n && In(lib, board, g, i) && (lib[i].id == m || HubOf(lib[i].pins) == Some(m));
      assert i < n + 1;
    }
  }

  /** The group a part goes to, whether joined or started: what members, names and hubs become. */
  ghost predicate Extends(lib: Lib, g: Group, p: Part, h: Group)
    requires p.radio.Some?
  {
    && h.names == g.names + p.radio.value.fields
    && (forall m :: m in h.members <==> m in g.members || m in Unit(p))
    && Distinct(h.members)
    && h.uarts == Uarts(lib, h.members) <= UARTS
  }

  lemma StaysIn(lib: Lib, board: set<string>, g: Group, n: nat, h: Group, i: nat)
    requires Sound(lib, board) && i < n < |lib| && Packs(lib, board, lib[n]) && Extends(lib, g, lib[n], h)
    ensures In(lib, board, h, i) <==> In(lib, board, g, i)
  {
    if Packs(lib, board, lib[i]) && lib[i].id in Unit(lib[n]) {
      HubsAreNotPacked(lib, board, lib[n], lib[i]);
    }
  }

  lemma ExtendedOk(lib: Lib, board: set<string>, g: Group, n: nat, h: Group)
    requires Sound(lib, board) && n < |lib| && GroupOk(lib, board, g, n)
    requires Packs(lib, board, lib[n]) && g.names !! lib[n].radio.value.fields && Extends(lib, g, lib[n], h)
    ensures GroupOk(lib, board, h, n + 1)
  {
    var p := lib[n];
    forall i | 0 <= i < n ensures In(lib, board, h, i) <==> In(lib, board, g, i) {
      StaysIn(lib, board, g, n, h, i);
    }
    assert p.id in Unit(p) && In(lib, board, h, n);
    ExtendedNames(lib, board, g, n, h);
    ExtendedMembers(lib, board, g, n, h);
  }

  lemma ExtendedNames(lib: Lib, board: set<string>, g: Group, n: nat, h: Group)
    requires n < |lib| && NamesExact(lib, board, g, n) && NamesDisjoint(lib, board, g, n)
    requires lib[n].radio.Some? && g.names !! lib[n].radio.value.fields && Extends(lib, g, lib[n], h)
    requires In(lib, board, h, n) && forall i | 0 <= i < n :: In(lib, board, h, i) <==> In(lib, board, g, i)
    ensures NamesExact(lib, board, h, n + 1) && NamesDisjoint(lib, board, h, n + 1)
  {
    hide Hosts, Uarts, HubOf, Unit, Distinct;
    forall x | x in h.names
      ensures exists i :: 0 <= i < n + 1 && In(lib, board, h, i) && x in lib[i].radio.value.fields
    {
      if x in g.names {
        var i :| 0 <= i < n && In(lib, board, g, i) && x in lib[i].radio.value.fields;
        assert In(lib, board, h, i);
      } else {
        assert In(lib, board, h, n);
      }
    }
  }

  lemma ExtendedMembers(lib: Lib, board: set<string>, g: Group, n: nat, h: Group)
    requires n < |lib| && MembersKnown(lib, board, g, n) && HubsIncluded(lib, board, g, n)
    requires lib[n].radio.Some? && Extends(lib, g, lib[n], h)
    requires In(lib, board, h, n) && forall i | 0 <= i < n :: In(lib, board, h, i) <==> In(lib, board, g, i)
    ensures MembersKnown(lib, board, h, n + 1) && HubsIncluded(lib, board, h, n + 1)
  {
    hide Packs, Uarts, HubOf, Distinct;
    forall m | m in h.members
      ensures exists i :: 0 <= i < n + 1 && In(lib, board, h, i) && (lib[i].id == m || HubOf(lib[i].pins) == Some(m))
    {
      if m in g.members {
        var i :| 0 <= i < n && In(lib, board, g, i) && (lib[i].id == m || HubOf(lib[i].pins) == Some(m));
        assert In(lib, board, h, i);
      } else {
        assert m in Unit(lib[n]) && In(lib, board, h, n);
      }
    }
  }

  /** The recorded UART count stays the true one: a hub already there is not counted again. */
  lemma JoinExtends(lib: Lib, g: Group, p: Part)
    requires Distinct(g.members) && g.uarts == Uarts(lib, g.members) && p.id !in g.members
    requires p.radio.Some? && Fits(lib, g, p) && HubOf(p.pins) != Some(p.id)
    ensures Extends(lib, g, p, Join(lib, g, p))
  {
    JoinCounts(lib, g, p);
    JoinMembers(lib, g, p);
    hide HubOf, Needs, Missing, Uarts, Unit, Distinct, NewUarts;
  }

  lemma JoinCounts(lib: Lib, g: Group, p: Part)
    requires g.uarts == Uarts(lib, g.members) && p.id !in g.members && p.radio.Some?
    ensures Join(lib, g, p).uarts == Uarts(lib, Join(lib, g, p).members)
  {
    hide HubOf, Needs, Missing, Uarts;
    MissingOfUnit(p, g.members);
    UnitUarts(lib, p);
    UartsAppend(lib, g.members, Missing(Unit(p), g.members));
    UartsOfOne(lib, p.id);
  }

  lemma JoinMembers(lib: Lib, g: Group, p: Part)
    requires Distinct(g.members) && p.id !in g.members && p.radio.Some? && HubOf(p.pins) != Some(p.id)
    ensures Distinct(Join(lib, g, p).members)
    ensures forall m :: m in Join(lib, g, p).members <==> m in g.members || m in Unit(p)
  {
    hide HubOf, Needs, Missing, Uarts;
    var missing := Missing(Unit(p), g.members);
    MissingOfUnit(p, g.members);
    assert Join(lib, g, p).members == g.members + missing;
    DistinctAppend(g.members, missing);
  }

  lemma DistinctAppend(a: seq<string>, b: seq<string>)
    requires Distinct(a) && Distinct(b) && forall x | x in b :: x !in a
    ensures Distinct(a + b)
  {
    forall i, j | 0 <= i < j < |a + b| ensures (a + b)[i] != (a + b)[j] {
      if i < |a| <= j {
        assert (a + b)[j] in b && (a + b)[i] in a;
      }
    }
  }

  lemma MissingOfUnit(p: Part, members: seq<string>)
    requires p.id !in members
    ensures Missing(Unit(p), members)
         == if HubOf(p.pins).Some? && HubOf(p.pins).value in members then [p.id] else Unit(p)
  {
    hide HubOf;
    assert [p.id][..0] == [] && Missing([p.id], members) == [p.id];
    if HubOf(p.pins).Some? {
      var hub := HubOf(p.pins).value;
      assert [hub][..0] == [] && [hub, p.id][..1] == [hub];
      assert Missing([hub], members) == if hub in members then [] else [hub];
      assert Missing([hub, p.id], members) == Missing([hub], members) + [p.id];
    }
  }

  lemma StartExtends(lib: Lib, p: Part)
    requires p.radio.Some? && HubOf(p.pins) != Some(p.id)
    ensures Extends(lib, Group({}, 0, []), p, Start(lib, p))
  {
    UnitUarts(lib, p);
  }

  lemma NoSelfHub(lib: Lib, board: set<string>, p: Part)
    requires Sound(lib, board) && p in lib && Packs(lib, board, p)
    ensures HubOf(p.pins) != Some(p.id)
  {
    if HubOf(p.pins).Some? {
      assert OnHub(lib, board, p) && HubUsable(lib, p);
    }
  }

  /** Exactly one group holds each packed part, and each group is sound: distinct members,
      each a packed part or the hub of one here; its names exactly its packed parts' fields,
      no two of which share one; its UART count the members' true count and at most two. */
  ghost predicate PackingOk(lib: Lib, board: set<string>, groups: seq<Group>, n: nat)
    requires n <= |lib|
  {
    && (forall k | 0 <= k < |groups| :: GroupOk(lib, board, groups[k], n))
    && Covered(lib, board, groups, n) && Once(lib, board, groups, n)
  }

  ghost predicate Covered(lib: Lib, board: set<string>, groups: seq<Group>, n: nat)
    requires n <= |lib|
  {
    forall i | 0 <= i < n && Packs(lib, board, lib[i]) :: exists k :: 0 <= k < |groups| && In(lib, board, groups[k], i)
  }

  ghost predicate Once(lib: Lib, board: set<string>, groups: seq<Group>, n: nat)
    requires n <= |lib|
  {
    forall i, k, l | 0 <= i < n && 0 <= k < l < |groups| ::
      !(In(lib, board, groups[k], i) && In(lib, board, groups[l], i))
  }

  lemma {:induction false} PackingIsSound(lib: Lib, board: set<string>, n: nat)
    requires Sound(lib, board) && n <= |lib|
    ensures PackingOk(lib, board, Pack(lib, board, n), n)
  {
    hide PackingOk, Sound, PackOne, Packs;
    if n == 0 {
      NoGroupsOk(lib, board);
    } else {
      PackingIsSound(lib, board, n - 1);
      var groups := Pack(lib, board, n - 1);
      if Packs(lib, board, lib[n - 1]) {
        PackOneKeeps(lib, board, groups, n - 1);
      } else {
        SkipKeeps(lib, board, groups, n - 1);
      }
    }
  }

  lemma NoGroupsOk(lib: Lib, board: set<string>)
    ensures PackingOk(lib, board, [], 0)
  {
  }

  lemma SkipKeeps(lib: Lib, board: set<string>, groups: seq<Group>, n: nat)
    requires Sound(lib, board) && n < |lib| && PackingOk(lib, board, groups, n) && !Packs(lib, board, lib[n])
    ensures PackingOk(lib, board, groups, n + 1)
  {
    hide GroupOk, Packs, Sound;
    forall k | 0 <= k < |groups| ensures GroupOk(lib, board, groups[k], n + 1) {
      OthersStay(lib, board, groups[k], n);
    }
  }

  lemma PackOneKeeps(lib: Lib, board: set<string>, groups: seq<Group>, n: nat)
    requires Sound(lib, board) && n < |lib| && PackingOk(lib, board, groups, n) && Packs(lib, board, lib[n])
    ensures PackingOk(lib, board, PackOne(lib, groups, lib[n]), n + 1)
  {
    var p, k := lib[n], FirstFit(lib, groups, lib[n]);
    NoSelfHub(lib, board, p);
    if k < |groups| {
      NotYetIn(lib, board, groups[k], n);
      JoinExtends(lib, groups[k], p);
      ExtendedOk(lib, board, groups[k], n, Join(lib, groups[k], p));
      Placed(lib, board, groups, n, groups[k], k, Join(lib, groups[k], p), groups[k := Join(lib, groups[k], p)]);
    } else {
      var none := Group({}, 0, []);
      StartExtends(lib, p);
      ExtendedOk(lib, board, none, n, Start(lib, p));
      Placed(lib, board, groups, n, none, k, Start(lib, p), groups + [Start(lib, p)]);
    }
  }

  /** Replacing group k, or adding one at the end, by the group the new part went to. */
  ghost predicate Puts(groups: seq<Group>, k: nat, g: Group, h: Group, after: seq<Group>)
  {
    && k <= |groups|
    && (k < |groups| ==> groups[k] == g && after == groups[k := h])
    && (k == |groups| ==> g == Group({}, 0, []) && after == groups + [h])
  }

  lemma Placed(lib: Lib, board: set<string>, groups: seq<Group>, n: nat, g: Group, k: nat, h: Group, after: seq<Group>)
    requires Sound(lib, board) && n < |lib| && PackingOk(lib, board, groups, n) && Packs(lib, board, lib[n])
    requires Puts(groups, k, g, h, after) && GroupOk(lib, board, h, n + 1) && Extends(lib, g, lib[n], h)
    ensures PackingOk(lib, board, after, n + 1)
  {
    hide Packs, Sound, Extends, Unit, Once, Covered, In;
    forall i | 0 <= i < n ensures In(lib, board, h, i) <==> In(lib, board, g, i) {
      StaysIn(lib, board, g, n, h, i);
    }
    forall j | 0 <= j < |groups| ensures lib[n].id !in groups[j].members && GroupOk(lib, board, groups[j], n + 1) {
      NotYetIn(lib, board, groups[j], n);
      OthersStay(lib, board, groups[j], n);
    }
    PlacedIn(lib, board, g, n, h);
    PlacedOnce(lib, board, groups, n, g, k, h, after);
    PlacedCovers(lib, board, groups, n, g, k, h, after);
    hide GroupOk;
    forall j | 0 <= j < |after| ensures GroupOk(lib, board, after[j], n + 1) {
      assert after[j] == if j == k then h else groups[j];
    }
  }

  lemma PlacedIn(lib: Lib, board: set<string>, g: Group, n: nat, h: Group)
    requires n < |lib| && Packs(lib, board, lib[n]) && Extends(lib, g, lib[n], h)
    ensures In(lib, board, h, n)
  {
    assert lib[n].id in Unit(lib[n]);
  }

  lemma PlacedCovers(lib: Lib, board: set<string>, groups: seq<Group>, n: nat, g: Group,
                       k: nat, h: Group, after: seq<Group>)
    requires n < |lib| && Covered(lib, board, groups, n) && Puts(groups, k, g, h, after) && In(lib, board, h, n)
    requires forall i | 0 <= i < n :: In(lib, board, h, i) <==> In(lib, board, g, i)
    ensures Covered(lib, board, after, n + 1)
  {
    hide Packs;
    forall i | 0 <= i < n + 1 && Packs(lib, board, lib[i])
      ensures exists j :: 0 <= j < |after| && In(lib, board, after[j], i)
    {
      assert after[k] == h;
      if i < n {
        var j :| 0 <= j < |groups| && In(lib, board, groups[j], i);
        assert after[j] == if j == k then h else groups[j];
        assert In(lib, board, after[j], i);
      } else {
        assert In(lib, board, after[k], i);
      }
    }
  }

  lemma PlacedOnce(lib: Lib, board: set<string>, groups: seq<Group>, n: nat, g: Group,
                     k: nat, h: Group, after: seq<Group>)
    requires n < |lib| && Once(lib, board, groups, n) && Puts(groups, k, g, h, after)
    requires forall j | 0 <= j < |groups| :: lib[n].id !in groups[j].members
    requires forall i | 0 <= i < n :: In(lib, board, h, i) <==> In(lib, board, g, i)
    ensures Once(lib, board, after, n + 1)
  {
    hide Packs;
    forall i, j, l | 0 <= i < n + 1 && 0 <= j < l < |after|
      ensures !(In(lib, board, after[j], i) && In(lib, board, after[l], i))
    {
      assert after[j] == if j == k then h else groups[j];
      assert after[l] == if l == k then h else groups[l];
      if i < n && l < |groups| {
        assert !(In(lib, board, groups[j], i) && In(lib, board, groups[l], i));
      }
    }
  }

  // ------------------------------------------------------------ UART pin pairs

  predicate IsUart(kind: string)
  {
    kind == "uart_tx" || kind == "uart_rx"
  }

  predicate HasUartPin(lib: Lib, id: string)
  {
    var p := Find(lib, id);
    p.Some? && exists pin :: pin in p.value.pins && IsUart(pin.kind)
  }

  const PAIRS := [("GPIO16", "GPIO17"), ("GPIO32", "GPIO33")]

  /** The members with a UART pin, in order: each draws one pair. */
  function Drawers(lib: Lib, members: seq<string>): seq<string>
  {
    if members == [] then []
    else
      Drawers(lib, members[..|members| - 1])
      + if HasUartPin(lib, members[|members| - 1]) then [members[|members| - 1]] else []
  }

  /** The UART buses one design gets; None when the pair iterator runs out. */
  method UartBuses(lib: Lib, members: seq<string>) returns (r: Option<seq<(string, (string, string))>>)
    ensures r.Some? <==> |Drawers(lib, members)| <= |PAIRS|
    ensures r.Some? ==>
      && |r.value| == |Drawers(lib, members)|
      && forall k :: 0 <= k < |r.value| ==> r.value[k] == (Drawers(lib, members)[k], PAIRS[k])
  {
    var buses: seq<(string, (string, string))> := [];
    for n := 0 to |members|
      invariant |buses| == |Drawers(lib, members[..n])| <= |PAIRS|
      invariant forall k :: 0 <= k < |buses| ==> buses[k] == (Drawers(lib, members[..n])[k], PAIRS[k])
    {
      assert members[..n + 1][..n] == members[..n];
      if HasUartPin(lib, members[n]) {
        if |buses| == |PAIRS| {
          DrawersPrefix(lib, members, n + 1);
          return None;
        }
        buses := buses + [(members[n], PAIRS[|buses|])];
      }
    }
    assert members[..|members|] == members;
    return Some(buses);
  }

  lemma {:induction false} DrawersPrefix(lib: Lib, members: seq<string>, n: nat)
    requires n <= |members|
    ensures |Drawers(lib, members[..n])| <= |Drawers(lib, members)|
    decreases |members| - n
  {
    if n < |members| {
      assert members[..n + 1][..n] == members[..n];
      DrawersPrefix(lib, members, n + 1);
    } else {
      assert members[..n] == members;
    }
  }

  /** Of the parts with a block, only those that ask for a UART have UART pins. */
  ghost predicate UartPinsDeclared(lib: Lib)
  {
    forall p, pin | p in lib && p.radio.Some? && pin in p.pins && IsUart(pin.kind) :: p.radio.value.uart
  }

  /** The id names a part with a block. */
  predicate HasBlock(lib: Lib, id: string)
  {
    Find(lib, id).Some? && Find(lib, id).value.radio.Some?
  }

  lemma {:induction false} DrawersAreCounted(lib: Lib, members: seq<string>)
    requires UartPinsDeclared(lib) && forall m | m in members :: HasBlock(lib, m)
    ensures |Drawers(lib, members)| <= Uarts(lib, members)
  {
    if members != [] {
      DrawersAreCounted(lib, members[..|members| - 1]);
      assert HasBlock(lib, members[|members| - 1]);
    }
  }

  /** Packed parts and their hubs all have blocks. */
  lemma MembersHaveBlocks(lib: Lib, board: set<string>, g: Group, m: string)
    requires Sound(lib, board) && MembersKnown(lib, board, g, |lib|) && m in g.members
    ensures HasBlock(lib, m)
  {
    var i :| 0 <= i < |lib| && In(lib, board, g, i) && (lib[i].id == m || HubOf(lib[i].pins) == Some(m));
    if lib[i].id == m {
      FindsIt(lib, board, lib[i]);
    } else {
      assert OnHub(lib, board, lib[i]) && HubUsable(lib, lib[i]);
    }
  }

  /** So the pair iterator never runs out on a packed group. */
  lemma PairsSuffice(lib: Lib, board: set<string>, k: nat)
    requires Sound(lib, board) && UartPinsDeclared(lib) && k < |Pack(lib, board, |lib|)|
    ensures |Drawers(lib, Pack(lib, board, |lib|)[k].members)| <= |PAIRS|
  {
    var g := Pack(lib, board, |lib|)[k];
    PackingIsSound(lib, board, |lib|);
    assert GroupOk(lib, board, g, |lib|);
    hide Pack, Sound;
    forall m | m in g.members ensures HasBlock(lib, m) {
      MembersHaveBlocks(lib, board, g, m);
    }
    DrawersAreCounted(lib, g.members);
  }

  // ------------------------------------------------------------ repeated names

  function Reports(p: Part): set<string>
  {
    if p.radio.Some? then p.radio.value.fields else {}
  }

  function FieldsOf(lib: Lib, id: string): set<string>
  {
    var p := Find(lib, id);
    if p.Some? then Reports(p.value) else {}
  }

  /** No two members of the design report the same field. */
  ghost predicate NoRepeats(lib: Lib, members: seq<string>)
  {
    forall i, j | 0 <= i < j < |members| :: FieldsOf(lib, members[i]) !! FieldsOf(lib, members[j])
  }

  ghost predicate PackedId(lib: Lib, board: set<string>, id: string)
  {
    exists p :: p in lib && p.id == id && Packs(lib, board, p)
  }

  /** The members that ride in as hubs: their own fields are not looked at. */
  ghost predicate HubsClear(lib: Lib, board: set<string>, g: Group)
  {
    && (forall m | m in g.members && !PackedId(lib, board, m) :: FieldsOf(lib, m) !! g.names)
    && (forall i, j | 0 <= i < j < |g.members|
          && !PackedId(lib, board, g.members[i]) && !PackedId(lib, board, g.members[j]) ::
          FieldsOf(lib, g.members[i]) !! FieldsOf(lib, g.members[j]))
  }

  lemma FindsIt(lib: Lib, board: set<string>, p: Part)
    requires Sound(lib, board) && p in lib
    ensures Find(lib, p.id) == Some(p)
  {
  }

  lemma PackedMember(lib: Lib, board: set<string>, g: Group, m: string) returns (i: nat)
    requires Sound(lib, board) && PackedId(lib, board, m) && m in g.members
    ensures i < |lib| && lib[i].id == m && In(lib, board, g, i) && FieldsOf(lib, m) == lib[i].radio.value.fields
  {
    var p :| p in lib && p.id == m && Packs(lib, board, p);
    i :| 0 <= i < |lib| && lib[i] == p;
    FindsIt(lib, board, p);
  }

  lemma PackedFieldsDisjoint(lib: Lib, board: set<string>, g: Group, a: string, b: string)
    requires Sound(lib, board) && GroupOk(lib, board, g, |lib|) && a in g.members && b in g.members && a != b
    requires PackedId(lib, board, a) && PackedId(lib, board, b)
    ensures FieldsOf(lib, a) !! FieldsOf(lib, b)
  {
    var i := PackedMember(lib, board, g, a);
    var j := PackedMember(lib, board, g, b);
    hide Packs, Uarts, HubOf, FieldsOf;
    assert i < j || j < i;
  }

  lemma PackedFieldsNamed(lib: Lib, board: set<string>, g: Group, a: string)
    requires Sound(lib, board) && GroupOk(lib, board, g, |lib|) && a in g.members && PackedId(lib, board, a)
    ensures FieldsOf(lib, a) <= g.names
  {
    var i := PackedMember(lib, board, g, a);
  }

  lemma ClearMeansNoRepeats(lib: Lib, board: set<string>, g: Group)
    requires Sound(lib, board) && GroupOk(lib, board, g, |lib|) && HubsClear(lib, board, g)
    ensures NoRepeats(lib, g.members)
  {
    hide PackedId, FieldsOf, Sound;
    forall i, j | 0 <= i < j < |g.members| ensures FieldsOf(lib, g.members[i]) !! FieldsOf(lib, g.members[j]) {
      var a, b := g.members[i], g.members[j];
      if PackedId(lib, board, a) { PackedFieldsNamed(lib, board, g, a); }
      if PackedId(lib, board, b) { PackedFieldsNamed(lib, board, g, b); }
      if PackedId(lib, board, a) && PackedId(lib, board, b) { PackedFieldsDisjoint(lib, board, g, a, b); }
    }
  }

  /** No two members of the k-th design report the same field, nor one the board reports. */
  ghost predicate RepeatFree(lib: Lib, board: set<string>, k: nat)
  {
    k < |Pack(lib, board, |lib|)| ==>
      && NoRepeats(lib, Pack(lib, board, |lib|)[k].members)
      && forall m | m in Pack(lib, board, |lib|)[k].members :: FieldsOf(lib, m) !! board
  }

  /** The part is the hub of one that is packed. */
  ghost predicate IsHub(lib: Lib, board: set<string>, id: string)
  {
    exists p :: p in lib && OnHub(lib, board, p) && HubOf(p.pins) == Some(id)
  }

  /** Every hub's fields keep clear of the board's and of every other part's. */
  ghost predicate HubFieldsApart(lib: Lib, board: set<string>)
  {
    forall id | IsHub(lib, board, id) ::
      FieldsOf(lib, id) !! board && forall other | other != id :: FieldsOf(lib, other) !! FieldsOf(lib, id)
  }

  lemma UnpackedIsHub(lib: Lib, board: set<string>, g: Group, m: string)
    requires MembersKnown(lib, board, g, |lib|) && m in g.members && !PackedId(lib, board, m)
    ensures IsHub(lib, board, m)
  {
    var i :| 0 <= i < |lib| && In(lib, board, g, i) && (lib[i].id == m || HubOf(lib[i].pins) == Some(m));
    assert lib[i].id == m ==> PackedId(lib, board, m);
    assert OnHub(lib, board, lib[i]);
  }

  lemma ApartMeansClear(lib: Lib, board: set<string>, g: Group)
    requires Sound(lib, board) && GroupOk(lib, board, g, |lib|) && HubFieldsApart(lib, board)
    ensures HubsClear(lib, board, g)
  {
    hide Packs, Uarts, Find, FieldsOf;
    forall m | m in g.members && !PackedId(lib, board, m)
      ensures IsHub(lib, board, m) && FieldsOf(lib, m) !! g.names
    {
      UnpackedIsHub(lib, board, g, m);
      forall x | x in g.names ensures x !in FieldsOf(lib, m) {
        NamedByPacked(lib, board, g, m, x);
      }
    }
  }

  lemma NamedByPacked(lib: Lib, board: set<string>, g: Group, m: string, x: string)
    requires Sound(lib, board) && NamesExact(lib, board, g, |lib|) && HubFieldsApart(lib, board)
    requires IsHub(lib, board, m) && !PackedId(lib, board, m) && x in g.names
    ensures x !in FieldsOf(lib, m)
  {
    var i :| 0 <= i < |lib| && In(lib, board, g, i) && x in lib[i].radio.value.fields;
    FindsIt(lib, board, lib[i]);
    assert PackedId(lib, board, lib[i].id) && x in FieldsOf(lib, lib[i].id);
    assert FieldsOf(lib, lib[i].id) !! FieldsOf(lib, m);
  }

  /** A library whose hubs' fields keep clear of everything else's gets no design that repeats
      a name. */
  lemma HubsApartNeverRepeat(lib: Lib, board: set<string>, k: nat)
    requires Sound(lib, board) && HubFieldsApart(lib, board) && k < |Pack(lib, board, |lib|)|
    ensures RepeatFree(lib, board, k)
  {
    var g := Pack(lib, board, |lib|)[k];
    PackingIsSound(lib, board, |lib|);
    assert GroupOk(lib, board, g, |lib|);
    hide Pack, Sound, FieldsOf, HubsClear;
    ApartMeansClear(lib, board, g);
    ClearMeansNoRepeats(lib, board, g);
    forall m | m in g.members ensures FieldsOf(lib, m) !! board {
      MemberClearOfBoard(lib, board, g, m);
    }
  }

  lemma MemberClearOfBoard(lib: Lib, board: set<string>, g: Group, m: string)
    requires Sound(lib, board) && GroupOk(lib, board, g, |lib|) && HubFieldsApart(lib, board) && m in g.members
    ensures FieldsOf(lib, m) !! board
  {
    if PackedId(lib, board, m) {
      var i := PackedMember(lib, board, g, m);
    } else {
      UnpackedIsHub(lib, board, g, m);
    }
  }

  /** In particular when the hubs report no fields of their own. */
  lemma FieldlessHubsNeverRepeat(lib: Lib, board: set<string>, k: nat)
    requires Sound(lib, board) && k < |Pack(lib, board, |lib|)|
    requires forall p | p in lib && OnHub(lib, board, p) :: FieldsOf(lib, HubOf(p.pins).value) == {}
    ensures RepeatFree(lib, board, k)
  {
    hide Pack, Sound, FieldsOf, Packs;
    HubsApartNeverRepeat(lib, board, k);
  }

  /** A part others may ride on: it has a block and no hub pin of its own. */
  predicate PlainHub(hub: Part)
  {
    hub.radio.Some? && forall pin | pin in hub.pins :: pin.kind != "hub_ref"
  }

  lemma {:induction false} NoHubPins(pins: seq<Pin>)
    requires forall pin | pin in pins :: pin.kind != "hub_ref"
    ensures HubOf(pins).None?
  {
    if pins != [] {
      NoHubPins(pins[1..]);
    }
  }

  function Rider(hub: Part): Part
  {
    Part(hub.id + "m", Some(Radio({}, false)), [Pin("hub_ref", Some(hub.id))])
  }

  /** A part off the hub that reports one field. */
  function Echo(hub: Part, x: string): Part
  {
    Part(hub.id + "t", Some(Radio({x}, false)), [])
  }

  function EchoLib(hub: Part, x: string): Lib
  {
    [hub, Rider(hub), Echo(hub, x)]
  }

  lemma EchoLibFinds(hub: Part, x: string)
    ensures
      var lib := EchoLib(hub, x);
      && Find(lib, hub.id) == Some(hub) && Find(lib, Rider(hub).id) == Some(Rider(hub))
      && Find(lib, Echo(hub, x).id) == Some(Echo(hub, x))
    ensures hub.id != Rider(hub).id && hub.id != Echo(hub, x).id && Rider(hub).id != Echo(hub, x).id
  {
    var lib := EchoLib(hub, x);
    assert |hub.id| < |Rider(hub).id| && |hub.id| < |Echo(hub, x).id|;
    assert Rider(hub).id[|hub.id|] == 'm' && Echo(hub, x).id[|hub.id|] == 't';
    assert lib[1..] == [Rider(hub), Echo(hub, x)] && lib[1..][1..] == [Echo(hub, x)];
    assert Find([Echo(hub, x)], Echo(hub, x).id) == Some(Echo(hub, x));
    assert Find(lib[1..], Rider(hub).id) == Some(Rider(hub)) && Find(lib[1..], Echo(hub, x).id) == Some(Echo(hub, x));
  }

  lemma EchoLibSound(hub: Part, x: string)
    requires PlainHub(hub)
    ensures
      var lib := EchoLib(hub, x);
      && Sound(lib, {}) && !Packs(lib, {}, hub) && Packs(lib, {}, Rider(hub)) && Packs(lib, {}, Echo(hub, x))
      && HubOf(hub.pins).None? && HubOf(Rider(hub).pins) == Some(hub.id) && HubOf(Echo(hub, x).pins).None?
  {
    var lib := EchoLib(hub, x);
    EchoLibFinds(hub, x);
    NoHubPins(hub.pins);
    assert lib[0] == hub && lib[1] == Rider(hub) && lib[2] == Echo(hub, x);
    assert Hosts(lib, hub.id) by {
      assert Rider(hub) in lib && Rider(hub).pins[0] in Rider(hub).pins;
    }
    assert !Hosts(lib, Echo(hub, x).id);
    hide Find, Hosts;
  }

  /** The hub, its rider and the echo end up in one design. */
  lemma EchoLibPacks(hub: Part, x: string)
    requires PlainHub(hub)
    ensures
      var lib := EchoLib(hub, x);
      |Pack(lib, {}, |lib|)| == 1 && Pack(lib, {}, |lib|)[0].members == [hub.id, Rider(hub).id, Echo(hub, x).id]
  {
    var lib := EchoLib(hub, x);
    var rider, echo := Rider(hub), Echo(hub, x);
    EchoLibFinds(hub, x);
    EchoLibSound(hub, x);
    assert Needs(lib, rider.id) == 0 && Needs(lib, echo.id) == 0;
    UnitUarts(lib, rider);
    UnitUarts(lib, echo);
    hide Find, Hosts, Packs, Needs, HubOf, Sound;
    var first := Start(lib, rider);
    assert first.members == [hub.id, rider.id] && first.names == {} && first.uarts <= 1;
    assert lib[0] == hub && lib[1] == rider && lib[2] == echo;
    assert Pack(lib, {}, 0) == [] && Pack(lib, {}, 1) == [];
    assert FirstFit(lib, [], rider) == 0 && PackOne(lib, [], rider) == [] + [first];
    assert Pack(lib, {}, 2) == [first];
    MissingOfUnit(echo, first.members);
    assert Unit(echo) == [echo.id];
    assert Fits(lib, first, echo) && FirstFit(lib, [first], echo) == 0;
    assert Pack(lib, {}, 3) == [Join(lib, first, echo)];
    assert first.members + [echo.id] == [hub.id, rider.id, echo.id];
  }

  /** A hub that reports a field can have it repeated: here the echo reports it too. */
  lemma EchoRepeats(hub: Part, x: string)
    requires PlainHub(hub) && x in Reports(hub)
    ensures
      var lib := EchoLib(hub, x);
      Sound(lib, {}) && |Pack(lib, {}, |lib|)| > 0 && !NoRepeats(lib, Pack(lib, {}, |lib|)[0].members)
  {
    var lib := EchoLib(hub, x);
    EchoLibFinds(hub, x);
    EchoLibSound(hub, x);
    EchoLibPacks(hub, x);
    hide Pack, Find, Sound;
    var members := Pack(lib, {}, |lib|)[0].members;
    assert members[0] == hub.id && members[2] == Echo(hub, x).id;
    assert x in FieldsOf(lib, members[0]) && x in FieldsOf(lib, members[2]);
  }

  /** Whenever the hub rides in a design, no other member reports one of its fields. */
  ghost predicate HubSafeIn(lib: Lib, board: set<string>, hub: Part, k: nat)
  {
    Sound(lib, board) && hub in lib && k < |Pack(lib, board, |lib|)| && hub.id in Pack(lib, board, |lib|)[k].members
    && !Packs(lib, board, hub)
    ==> forall m | m in Pack(lib, board, |lib|)[k].members && m != hub.id :: FieldsOf(lib, m) !! Reports(hub)
  }

  /** One hub, in whatever library, on whatever board: its fields are never repeated if and
      only if it has none. */
  lemma HubIsSafeIff(hub: Part)
    requires PlainHub(hub)
    ensures Reports(hub) == {} <==> forall lib, board, k: nat :: HubSafeIn(lib, board, hub, k)
  {
    if x :| x in Reports(hub) {
      var lib := EchoLib(hub, x);
      EchoLibFinds(hub, x);
      EchoLibSound(hub, x);
      EchoLibPacks(hub, x);
      hide Pack, Find, Sound, Packs;
      var members := Pack(lib, {}, |lib|)[0].members;
      assert members[0] == hub.id && members[2] == Echo(hub, x).id;
      assert x in FieldsOf(lib, Echo(hub, x).id) && lib[0] == hub;
      assert !HubSafeIn(lib, {}, hub, 0);
    }
  }

  /** Every packed part that is on a hub is on one of these. */
  ghost predicate HubsAmong(lib: Lib, board: set<string>, hubs: set<Part>)
  {
    forall p | p in lib && OnHub(lib, board, p) :: exists h :: h in hubs && Find(lib, HubOf(p.pins).value) == Some(h)
  }

  /** The packer's promise, exactly, in terms of the hubs alone: no library that uses these
      hubs ever gets a design that repeats a field name if and only if none of the hubs
      reports a field. */
  lemma RepeatFreeIff(hubs: set<Part>)
    requires forall h | h in hubs :: PlainHub(h)
    ensures (forall h | h in hubs :: Reports(h) == {})
       <==> forall lib, board, k: nat | Sound(lib, board) && HubsAmong(lib, board, hubs) :: RepeatFree(lib, board, k)
  {
    if forall h | h in hubs :: Reports(h) == {} {
      forall lib, board, k: nat | Sound(lib, board) && HubsAmong(lib, board, hubs) ensures RepeatFree(lib, board, k) {
        FieldlessAmong(lib, board, hubs);
        if k < |Pack(lib, board, |lib|)| {
          FieldlessHubsNeverRepeat(lib, board, k);
        }
      }
    } else {
      var h :| h in hubs && Reports(h) != {};
      var x :| x in Reports(h);
      EchoRepeats(h, x);
      EchoLibAmong(h, x, hubs);
      hide Pack, Sound, HubsAmong, NoRepeats;
      assert !RepeatFree(EchoLib(h, x), {}, 0);
    }
  }

  lemma FieldlessAmong(lib: Lib, board: set<string>, hubs: set<Part>)
    requires HubsAmong(lib, board, hubs) && forall h | h in hubs :: Reports(h) == {}
    ensures forall p | p in lib && OnHub(lib, board, p) :: FieldsOf(lib, HubOf(p.pins).value) == {}
  {
    hide HubOf, Find;
  }

  lemma EchoLibAmong(hub: Part, x: string, hubs: set<Part>)
    requires PlainHub(hub) && hub in hubs
    ensures HubsAmong(EchoLib(hub, x), {}, hubs)
  {
    EchoLibFinds(hub, x);
    EchoLibSound(hub, x);
    hide Find, Sound, Packs, HubOf;
  }
}
