/** Id repair as a renaming of the document's reference graph (wirestudio/migrate.py:183-272).
    The document is a JSON tree; object fields carry no order. */
module IdRepair {
  import opened Options
  import opened Text
  import opened BusIds

  datatype Json =
    | Obj(fields: map<string, Json>)
    | Arr(items: seq<Json>)
    | Str(text: string)
    | Other(scalar: int)

  type Object = map<string, Json>

  // ------------------------------------------------------------- the rename

  const NOT_REFERENCES := {"library_id", "module_id"}

  /** The keys whose string values name a component or a bus. */
  predicate IsReferenceKey(key: string)
  {
    (EndsWith(key, "_id") && key !in NOT_REFERENCES) || key == "sensor"
  }

  /** Spelled out: `sensor`, and every key that ends in `_id` but the two that name library
      entries. */
  lemma ReferenceKeysExactly(key: string)
    ensures IsReferenceKey(key) <==>
      || key == "sensor"
      || (|key| >= 3 && key[|key| - 3] == '_' && key[|key| - 2] == 'i' && key[|key| - 1] == 'd'
          && key != "library_id" && key != "module_id")
  {
    if |key| >= 3 {
      assert key[|key| - 3..] == [key[|key| - 3], key[|key| - 2], key[|key| - 1]];
      assert "_id" == ['_', 'i', 'd'];
    }
  }

  function Renamed(renames: map<string, string>, s: string): string
  {
    if s in renames then renames[s] else s
  }

  /** The inner `walk`: a list hands its own key down to its items. */
  function Walk(renames: map<string, string>, node: Json, key: string): Json
    decreases node
  {
    match node
    case Obj(fields) => Obj(map k | k in fields :: Walk(renames, fields[k], k))
    case Arr(items) => Arr(seq(|items|, i requires 0 <= i < |items| => Walk(renames, items[i], key)))
    case Str(text) => if IsReferenceKey(key) then Str(Renamed(renames, text)) else node
    case Other(_) => node
  }

  function ItemsOf(doc: Object, section: string): seq<Json>
  {
    if section in doc && doc[section].Arr? then doc[section].items else []
  }

  function RenameId(renames: map<string, string>, node: Json): Json
  {
    if node.Obj? && "id" in node.fields && node.fields["id"].Str?
    then Obj(node.fields["id" := Str(Renamed(renames, node.fields["id"].text))]) else node
  }

  function RenameSection(renames: map<string, string>, items: seq<Json>): Json
  {
    Arr(seq(|items|, i requires 0 <= i < |items| => RenameId(renames, items[i])))
  }

  function ApplyIdRenames(doc: Object, renames: map<string, string>): Object
  {
    if renames == map[] then doc
    else
      var walked: Object := Walk(renames, Obj(doc), "").fields;
      walked["components" := RenameSection(renames, ItemsOf(walked, "components"))]
            ["buses" := RenameSection(renames, ItemsOf(walked, "buses"))]
  }

  // -------------------------------------------------- positions in a document

  datatype PathStep = Key(name: string) | At(index: nat)

  function Get(node: Json, path: seq<PathStep>): Option<Json>
    decreases path
  {
    if path == [] then Some(node)
    else
      match path[0]
      case Key(name) => if node.Obj? && name in node.fields then Get(node.fields[name], path[1..]) else None
      case At(i) => if node.Arr? && i < |node.items| then Get(node.items[i], path[1..]) else None
  }

  /** The key a value at the end of the path is held under, through any lists. */
  function LastKey(path: seq<PathStep>, key: string): string
  {
    if path == [] then key
    else LastKey(path[1..], if path[0].Key? then path[0].name else key)
  }

  lemma {:induction false} WalkGet(renames: map<string, string>, node: Json, key: string, path: seq<PathStep>)
    ensures Get(Walk(renames, node, key), path)
         == match Get(node, path)
            case None => None
            case Some(x) => Some(Walk(renames, x, LastKey(path, key)))
    decreases path
  {
    if path != [] {
      match path[0]
      case Key(name) =>
        if node.Obj? && name in node.fields {
          WalkGet(renames, node.fields[name], name, path[1..]);
        }
      case At(i) =>
        if node.Arr? && i < |node.items| {
          WalkGet(renames, node.items[i], key, path[1..]);
        }
    }
  }

  /** The position of the id of a component or a bus. */
  predicate IsIdPosition(path: seq<PathStep>)
  {
    |path| == 3 && path[0] in {Key("components"), Key("buses")} && path[1].At? && path[2] == Key("id")
  }

  predicate IsReferencePosition(path: seq<PathStep>)
  {
    IsReferenceKey(LastKey(path, ""))
  }

  /** `components` and `buses` hold lists, or nothing. */
  predicate HasSections(doc: Object)
  {
    forall section | section in {"components", "buses"} && section in doc :: doc[section].Arr? || doc[section].Other?
  }

  lemma RenameIdGet(renames: map<string, string>, node: Json, rest: seq<PathStep>)
    ensures
      var here := Get(node, rest);
      Get(RenameId(renames, node), rest)
        == if rest == [Key("id")] && here.Some? && here.value.Str? then Some(Str(Renamed(renames, here.value.text)))
           else if rest == [] then Some(RenameId(renames, node))
           else here
  {
    if rest != [] {
      assert rest == [rest[0]] + rest[1..];
    }
  }

  lemma SectionGet(renames: map<string, string>, items: seq<Json>, section: string, path: seq<PathStep>)
    requires path != [] && path[0] == Key(section)
    ensures
      var walked := Walk(renames, Arr(items), section);
      var here := Get(Arr(items), path[1..]);
      var there := Get(RenameSection(renames, walked.items), path[1..]);
      && (here.Some? && here.value.Str? ==> there == Some(
            if |path| == 3 && path[2] == Key("id") then Str(Renamed(renames, here.value.text))
            else Walk(renames, here.value, LastKey(path, ""))))
      && (there.Some? && there.value.Str? ==> here.Some? && here.value.Str?)
  {
    var rest := path[1..];
    var walked := Walk(renames, Arr(items), section);
    WalkGet(renames, Arr(items), section, rest);
    if rest != [] && rest[0].At? && rest[0].index < |items| {
      var i := rest[0].index;
      RenameIdGet(renames, walked.items[i], rest[1..]);
      WalkGet(renames, items[i], section, rest[1..]);
      if rest[1..] == [Key("id")] {
        assert LastKey(rest[1..], section) == "id";
      }
    }
  }

  /** Every string in the document, before and after: ids and references are renamed once,
      everything else stays, nothing appears or goes. */
  lemma RenameAt(doc: Object, renames: map<string, string>, path: seq<PathStep>)
    requires HasSections(doc)
    ensures
      var here := Get(Obj(doc), path);
      var there := Get(Obj(ApplyIdRenames(doc, renames)), path);
      && (here.Some? && here.value.Str? ==> there == Some(Str(
            if IsIdPosition(path) || IsReferencePosition(path) then Renamed(renames, here.value.text)
            else here.value.text)))
      && (there.Some? && there.value.Str? ==> here.Some? && here.value.Str?)
  {
    if renames != map[] && path != [] && path[0].Key? {
      var section := path[0].name;
      WalkGet(renames, Obj(doc), "", path);
      if section in {"components", "buses"} && section in doc && doc[section].Arr? {
        SectionGet(renames, doc[section].items, section, path);
      }
    }
  }

  /** The same place in two documents: there in both or in neither, with the same keys, the
      same number of items or the same scalar. Strings are left to `RenameAt`. */
  predicate Mirrors(here: Option<Json>, there: Option<Json>)
  {
    && (here.Some? <==> there.Some?)
    && (here.Some? ==>
          match here.value
          case Obj(fields) => there.value.Obj? && there.value.fields.Keys == fields.Keys
          case Arr(items) => there.value.Arr? && |there.value.items| == |items|
          case Str(_) => there.value.Str?
          case Other(_) => there == here)
  }

  /** A place below the document itself, the two section lists apart. */
  predicate IsInside(path: seq<PathStep>)
  {
    path != [] && path != [Key("components")] && path != [Key("buses")]
  }

  /** Nothing appears, goes or changes its shape: a rename only rewrites strings. A section
      that was missing or no list becomes the empty list. */
  lemma RenameMirrors(doc: Object, renames: map<string, string>, path: seq<PathStep>)
    requires HasSections(doc) && IsInside(path)
    ensures Mirrors(Get(Obj(doc), path), Get(Obj(ApplyIdRenames(doc, renames)), path))
  {
    if renames != map[] && path[0].Key? {
      var section := path[0].name;
      WalkGet(renames, Obj(doc), "", path);
      if section in {"components", "buses"} {
        assert path == [Key(section)] + path[1..];
        if section in doc && doc[section].Arr? {
          SectionMirrors(renames, doc[section].items, section, path[1..]);
        }
      }
    }
  }

  lemma SectionMirrors(renames: map<string, string>, items: seq<Json>, section: string, rest: seq<PathStep>)
    requires rest != []
    ensures
      var walked := Walk(renames, Arr(items), section);
      Mirrors(Get(Arr(items), rest), Get(RenameSection(renames, walked.items), rest))
  {
    var walked := Walk(renames, Arr(items), section);
    if rest[0].At? && rest[0].index < |items| {
      var i := rest[0].index;
      RenameIdGet(renames, walked.items[i], rest[1..]);
      WalkGet(renames, items[i], section, rest[1..]);
    }
  }

  // -------------------------------------------------------------- resolution

  function IdOf(node: Json): Option<string>
  {
    if node.Obj? && "id" in node.fields && node.fields["id"].Str? then Some(node.fields["id"].text) else None
  }

  function IdsOf(items: seq<Json>): set<string>
  {
    set i | 0 <= i < |items| && IdOf(items[i]).Some? :: IdOf(items[i]).value
  }

  function ComponentIdsOf(doc: Object): set<string> { IdsOf(ItemsOf(doc, "components")) }

  function BusIdsOf(doc: Object): set<string> { IdsOf(ItemsOf(doc, "buses")) }

  /** The i-th entry of the section is the one a reference to `id` names. */
  predicate Names(doc: Object, section: string, i: nat, id: string)
  {
    i < |ItemsOf(doc, section)| && IdOf(ItemsOf(doc, section)[i]) == Some(id)
  }

  lemma IdHasEntry(doc: Object, section: string, id: string) returns (i: nat)
    requires id in IdsOf(ItemsOf(doc, section))
    ensures Names(doc, section, i, id)
  {
    var items := ItemsOf(doc, section);
    i :| 0 <= i < |items| && IdOf(items[i]) == Some(id);
  }

  lemma NamesIsGet(doc: Object, section: string, i: nat, id: string)
    ensures Names(doc, section, i, id) <==> Get(Obj(doc), [Key(section), At(i), Key("id")]) == Some(Str(id))
  {
    var path := [Key(section), At(i), Key("id")];
    assert path[1..] == [At(i), Key("id")] && path[1..][1..] == [Key("id")] && path[1..][1..][1..] == [];
    if section in doc {
      assert Get(Obj(doc), path) == Get(doc[section], [At(i), Key("id")]);
      if doc[section].Arr? && i < |doc[section].items| {
        var item := doc[section].items[i];
        assert Get(doc[section], [At(i), Key("id")]) == Get(item, [Key("id")]);
        assert Get(item, [Key("id")]) == if item.Obj? && "id" in item.fields then Some(item.fields["id"]) else None;
      }
    }
  }

  /** A reference names the same entry before and after, as long as the rename keeps the ids
      of the section apart from it. */
  lemma ReferenceFollows(doc: Object, renames: map<string, string>, section: string, i: nat, s: string)
    requires HasSections(doc) && section in {"components", "buses"}
    requires forall x | x in IdsOf(ItemsOf(doc, section)) && Renamed(renames, x) == Renamed(renames, s) :: x == s
    ensures Names(doc, section, i, s) <==> Names(ApplyIdRenames(doc, renames), section, i, Renamed(renames, s))
  {
    var out := ApplyIdRenames(doc, renames);
    var path := [Key(section), At(i), Key("id")];
    RenameAt(doc, renames, path);
    NamesIsGet(doc, section, i, s);
    NamesIsGet(out, section, i, Renamed(renames, s));
    if Names(out, section, i, Renamed(renames, s)) {
      var here := Get(Obj(doc), path);
      NamesIsGet(doc, section, i, here.value.text);
      assert here.value.text in IdsOf(ItemsOf(doc, section));
    }
  }

  /** The reference names the same entries of the section before and after. */
  ghost predicate FollowsIn(doc: Object, renames: map<string, string>, section: string, s: string)
  {
    forall i: nat :: Names(doc, section, i, s) <==> Names(ApplyIdRenames(doc, renames), section, i, Renamed(renames, s))
  }

  /** And only then: an id the rename does not keep apart captures the reference. */
  lemma FollowsIff(doc: Object, renames: map<string, string>, section: string, s: string)
    requires HasSections(doc) && section in {"components", "buses"}
    ensures FollowsIn(doc, renames, section, s) <==>
      forall x | x in IdsOf(ItemsOf(doc, section)) && Renamed(renames, x) == Renamed(renames, s) :: x == s
  {
    if forall x | x in IdsOf(ItemsOf(doc, section)) && Renamed(renames, x) == Renamed(renames, s) :: x == s {
      forall i: nat {
        ReferenceFollows(doc, renames, section, i, s);
      }
    } else {
      var x :| x in IdsOf(ItemsOf(doc, section)) && Renamed(renames, x) == Renamed(renames, s) && x != s;
      var i := IdHasEntry(doc, section, x);
      var path := [Key(section), At(i), Key("id")];
      NamesIsGet(doc, section, i, x);
      RenameAt(doc, renames, path);
      NamesIsGet(ApplyIdRenames(doc, renames), section, i, Renamed(renames, x));
      assert !Names(doc, section, i, s);
    }
  }

  // -------------------------------------------------------- choosing the names

  /** What a repair loop builds: renames, and every id it must not hand out again. */
  datatype Plan = Plan(renames: map<string, string>, taken: set<string>)

  datatype Naming = AsBus | WithSuffix

  function KindOf(node: Json): string
  {
    if node.Obj? && "type" in node.fields && node.fields["type"].Str? && node.fields["type"].text != ""
    then node.fields["type"].text else "bus"
  }

  function NewId(naming: Naming, node: Json, id: string, taken: set<string>): (r: string)
    ensures r !in taken
  {
    match naming
    case AsBus => FreeBusIdFor(KindOf(node), taken)
    case WithSuffix => Numbered(id + "_", FirstFree(id + "_", taken, 1))
  }

  function PlanStep(naming: Naming, wanted: set<string>, node: Json, plan: Plan): Plan
  {
    match IdOf(node)
    case None => plan
    case Some(id) =>
      if id !in wanted then plan
      else
        var newId := NewId(naming, node, id, plan.taken);
        Plan(plan.renames[id := newId], plan.taken + {newId})
  }

  /** The plan after the first n entries of a section. */
  function PlanAfter(naming: Naming, wanted: set<string>, items: seq<Json>, n: nat, plan: Plan): Plan
    requires n <= |items|
  {
    if n == 0 then plan else PlanStep(naming, wanted, items[n - 1], PlanAfter(naming, wanted, items, n - 1, plan))
  }

  method PlanRenames(naming: Naming, wanted: set<string>, items: seq<Json>, plan: Plan) returns (r: Plan)
    ensures r == PlanAfter(naming, wanted, items, |items|, plan)
  {
    r := plan;
    for i := 0 to |items|
      invariant r == PlanAfter(naming, wanted, items, i, plan)
    {
      var id := IdOf(items[i]);
      if id.Some? && id.value in wanted {
        var newId: string;
        match naming {
          case AsBus => newId := FreeBusId(KindOf(items[i]), r.taken);
          case WithSuffix =>
            var n := FindFree(id.value + "_", r.taken, 1);
            newId := Numbered(id.value + "_", n);
        }
        r := Plan(r.renames[id.value := newId], r.taken + {newId});
      }
    }
  }

  /** New names are new, and no two ids share one. */
  ghost predicate FreshRenames(renames: map<string, string>, ids: set<string>)
  {
    && renames.Keys <= ids
    && (forall x | x in renames :: renames[x] !in ids)
    && (forall x, y | x in renames && y in renames && x != y :: renames[x] != renames[y])
  }

  lemma {:induction false} PlanIsFresh(
    naming: Naming, wanted: set<string>, items: seq<Json>, n: nat, plan: Plan, ids: set<string>)
    requires n <= |items| && IdsOf(items) <= ids <= plan.taken
    requires FreshRenames(plan.renames, ids) && plan.renames.Values <= plan.taken
    ensures
      var r := PlanAfter(naming, wanted, items, n, plan);
      && FreshRenames(r.renames, ids) && r.renames.Values <= r.taken && plan.taken <= r.taken
      && r.renames.Keys == plan.renames.Keys + (IdsOf(items[..n]) * wanted)
  {
    if n > 0 {
      PlanIsFresh(naming, wanted, items, n - 1, plan, ids);
      assert items[..n] == items[..n - 1] + [items[n - 1]];
      var before := PlanAfter(naming, wanted, items, n - 1, plan);
      var after := PlanAfter(naming, wanted, items, n, plan);
      assert IdsOf(items[..n]) == IdsOf(items[..n - 1]) + IdsOf([items[n - 1]]) by {
        forall i | 0 <= i < n ensures items[..n][i] == items[i] { }
        assert forall id :: id in IdsOf([items[n - 1]]) <==> IdOf([items[n - 1]][0]) == Some(id);
      }
      if IdOf(items[n - 1]).Some? && IdOf(items[n - 1]).value in wanted {
        var id := IdOf(items[n - 1]).value;
        assert id in IdsOf(items);
        assert after.renames.Values <= before.renames.Values + {after.renames[id]};
      }
    }
  }

  /** Fresh renames keep distinct ids distinct, the dangling reference that already equals a
      new name aside. */
  lemma RenameIsInjective(renames: map<string, string>, ids: set<string>, x: string, s: string)
    requires FreshRenames(renames, ids) && x in ids
    requires s in ids || s !in renames.Values
    requires Renamed(renames, x) == Renamed(renames, s)
    ensures x == s
  {
  }

  // --------------------------------------------------------------- repair one

  function ReservedRenames(doc: Object): map<string, string>
  {
    var buses := ItemsOf(doc, "buses");
    PlanAfter(AsBus, RESERVED_BUS_IDS, buses, |buses|, Plan(map[], BusIdsOf(doc))).renames
  }

  function RenameReservedBusIds(doc: Object): Object
  {
    ApplyIdRenames(doc, ReservedRenames(doc))
  }

  method RepairReservedBusIds(doc: Object) returns (out: Object, changed: bool)
    ensures out == RenameReservedBusIds(doc) && (changed <==> ReservedRenames(doc) != map[])
  {
    var plan := PlanRenames(AsBus, RESERVED_BUS_IDS, ItemsOf(doc, "buses"), Plan(map[], BusIdsOf(doc)));
    out := ApplyIdRenames(doc, plan.renames);
    changed := plan.renames != map[];
  }

  lemma ReservedPlan(doc: Object)
    ensures FreshRenames(ReservedRenames(doc), BusIdsOf(doc))
    ensures ReservedRenames(doc).Keys == BusIdsOf(doc) * RESERVED_BUS_IDS
  {
    var buses := ItemsOf(doc, "buses");
    PlanIsFresh(AsBus, RESERVED_BUS_IDS, buses, |buses|, Plan(map[], BusIdsOf(doc)), BusIdsOf(doc));
    assert buses[..|buses|] == buses;
  }

  /** The ids of a section after a rename are the renamed ids, no others. */
  lemma SectionIds(doc: Object, renames: map<string, string>, section: string, id: string)
    requires HasSections(doc) && section in {"components", "buses"}
    ensures id in IdsOf(ItemsOf(ApplyIdRenames(doc, renames), section))
       <==> exists x :: x in IdsOf(ItemsOf(doc, section)) && Renamed(renames, x) == id
  {
    var out := ApplyIdRenames(doc, renames);
    if id in IdsOf(ItemsOf(out, section)) {
      var i := IdHasEntry(out, section, id);
      RenameAt(doc, renames, [Key(section), At(i), Key("id")]);
      NamesIsGet(out, section, i, id);
      var here := Get(Obj(doc), [Key(section), At(i), Key("id")]).value.text;
      NamesIsGet(doc, section, i, here);
      assert here in IdsOf(ItemsOf(doc, section));
    }
    forall x | x in IdsOf(ItemsOf(doc, section)) && Renamed(renames, x) == id
      ensures id in IdsOf(ItemsOf(out, section))
    {
      var i := IdHasEntry(doc, section, x);
      RenameAt(doc, renames, [Key(section), At(i), Key("id")]);
      NamesIsGet(doc, section, i, x);
      NamesIsGet(out, section, i, id);
    }
  }

  /** A bus reference, resolving or not, names the same buses before and after if and only if
      it does not already equal a fresh name; so every one that resolved follows. */
  lemma BusReferenceFollowsIff(doc: Object, s: string)
    requires HasSections(doc)
    ensures FollowsIn(doc, ReservedRenames(doc), "buses", s) <==> s !in ReservedRenames(doc).Values
    ensures s in BusIdsOf(doc) ==> FollowsIn(doc, ReservedRenames(doc), "buses", s)
  {
    var renames, buses := ReservedRenames(doc), BusIdsOf(doc);
    ReservedPlan(doc);
    FollowsIff(doc, renames, "buses", s);
    if s in renames.Values {
      var x :| x in renames && renames[x] == s;
      assert x in buses && x != s && Renamed(renames, x) == Renamed(renames, s);
    } else {
      forall x | x in buses && Renamed(renames, x) == Renamed(renames, s) ensures x == s {
        RenameIsInjective(renames, buses, x, s);
      }
    }
  }

  /** A component reference does exactly when its new name is no sibling's id and it is not
      itself the new name of a component's id. */
  lemma ComponentReferenceFollowsIff(doc: Object, s: string)
    requires HasSections(doc)
    ensures
      var renames, components := ReservedRenames(doc), ComponentIdsOf(doc);
      FollowsIn(doc, renames, "components", s) <==>
        && (s in renames ==> renames[s] !in components)
        && (forall x | x in components && x in renames :: renames[x] != s)
  {
    var renames, components := ReservedRenames(doc), ComponentIdsOf(doc);
    ReservedPlan(doc);
    FollowsIff(doc, renames, "components", s);
    forall x | x in renames ensures renames[x] !in renames {
      assert x in BusIdsOf(doc) && renames[x] !in BusIdsOf(doc);
    }
  }

  /** Every component reference that resolved follows if and only if no component that shares a
      reserved bus's id has a sibling already holding that bus's new name. */
  lemma ComponentReferencesFollowIff(doc: Object)
    requires HasSections(doc)
    ensures
      var renames, components := ReservedRenames(doc), ComponentIdsOf(doc);
      (forall s | s in components :: FollowsIn(doc, renames, "components", s))
      <==> (forall x | x in components && x in renames :: renames[x] !in components)
  {
    forall s ensures
      var renames, components := ReservedRenames(doc), ComponentIdsOf(doc);
      FollowsIn(doc, renames, "components", s) <==>
        && (s in renames ==> renames[s] !in components)
        && (forall x | x in components && x in renames :: renames[x] != s)
    {
      ComponentReferenceFollowsIff(doc, s);
    }
    hide FollowsIn;
  }

  lemma NewIdUnreserved(naming: Naming, node: Json, id: string, taken: set<string>)
    ensures NewId(naming, node, id, taken) !in RESERVED_BUS_IDS
  {
    match naming
    case AsBus => GeneratedNeverReserved(KindOf(node), FirstFree(BusPrefix(KindOf(node)), taken, 0));
    case WithSuffix => SuffixedNeverReserved(id, FirstFree(id + "_", taken, 1));
  }

  lemma {:induction false} PlannedNamesUnreserved(
    naming: Naming, wanted: set<string>, items: seq<Json>, n: nat, plan: Plan)
    requires n <= |items| && plan.renames.Values !! RESERVED_BUS_IDS
    ensures PlanAfter(naming, wanted, items, n, plan).renames.Values !! RESERVED_BUS_IDS
  {
    if n > 0 {
      PlannedNamesUnreserved(naming, wanted, items, n - 1, plan);
      var before := PlanAfter(naming, wanted, items, n - 1, plan);
      if IdOf(items[n - 1]).Some? {
        NewIdUnreserved(naming, items[n - 1], IdOf(items[n - 1]).value, before.taken);
      }
    }
  }

  /** No reserved bus id is left. */
  lemma NoReservedLeft(doc: Object)
    requires HasSections(doc)
    ensures BusIdsOf(RenameReservedBusIds(doc)) !! RESERVED_BUS_IDS
  {
    var renames := ReservedRenames(doc);
    var buses := ItemsOf(doc, "buses");
    ReservedPlan(doc);
    PlannedNamesUnreserved(AsBus, RESERVED_BUS_IDS, buses, |buses|, Plan(map[], BusIdsOf(doc)));
    forall id | id in BusIdsOf(RenameReservedBusIds(doc)) ensures id !in RESERVED_BUS_IDS {
      SectionIds(doc, renames, "buses", id);
      var x :| x in BusIdsOf(doc) && Renamed(renames, x) == id;
      assert x in renames ==> renames[x] in renames.Values;
    }
  }

  /** The repair checks new names against bus ids only. Components and buses that shared no
      id still share none exactly when no new name is a component's id. */
  lemma NamespacesStayApart(doc: Object)
    requires HasSections(doc) && ComponentIdsOf(doc) !! BusIdsOf(doc)
    ensures
      var out := RenameReservedBusIds(doc);
      ComponentIdsOf(out) !! BusIdsOf(out) <==> ReservedRenames(doc).Values !! ComponentIdsOf(doc)
  {
    var renames := ReservedRenames(doc);
    var out := RenameReservedBusIds(doc);
    ReservedPlan(doc);
    forall id ensures id in ComponentIdsOf(out) <==> id in ComponentIdsOf(doc) {
      SectionIds(doc, renames, "components", id);
      assert id in ComponentIdsOf(doc) ==> Renamed(renames, id) == id;
    }
    forall id ensures id in BusIdsOf(out) <==> exists x :: x in BusIdsOf(doc) && Renamed(renames, x) == id {
      SectionIds(doc, renames, "buses", id);
    }
    if id :| id in renames.Values && id in ComponentIdsOf(doc) {
      var x :| x in renames && renames[x] == id;
      assert Renamed(renames, x) == id && x in BusIdsOf(doc);
      assert id in BusIdsOf(out);
    }
  }

  /** With shared ids allowed, component ids stay apart exactly when no component that shares
      a reserved bus's id has a sibling already holding that bus's new name. */
  lemma ComponentsStayApart(doc: Object)
    ensures
      var renames := ReservedRenames(doc);
      (forall x, y | x in ComponentIdsOf(doc) && y in ComponentIdsOf(doc)
                     && Renamed(renames, x) == Renamed(renames, y) :: x == y)
      <==> (forall x | x in ComponentIdsOf(doc) && x in renames :: renames[x] !in ComponentIdsOf(doc))
  {
    var renames := ReservedRenames(doc);
    ReservedPlan(doc);
    if x :| x in ComponentIdsOf(doc) && x in renames && renames[x] in ComponentIdsOf(doc) {
      assert renames[x] !in renames && Renamed(renames, renames[x]) == renames[x] == Renamed(renames, x);
      assert x in BusIdsOf(doc) && renames[x] !in BusIdsOf(doc);
    }
  }

  const SPI0 := Obj(map["id" := Str("spi0"), "type" := Str("spi")])

  /** A document whose one bus is an SPI bus under its old name. */
  function WithSpi0(components: seq<Json>): Object
  {
    map["components" := Arr(components), "buses" := Arr([SPI0])]
  }

  function Named(id: string): Json
  {
    Obj(map["id" := Str(id)])
  }

  lemma Spi0IsRenamed(components: seq<Json>)
    ensures HasSections(WithSpi0(components)) && BusIdsOf(WithSpi0(components)) == {"spi0"}
    ensures ReservedRenames(WithSpi0(components)) == map["spi0" := "spi_bus0"]
  {
    var buses := ItemsOf(WithSpi0(components), "buses");
    assert buses == [SPI0] && IdOf(buses[0]) == Some("spi0");
    assert BusPrefix("spi") == "spi_bus" by {
      assert "spi" + "0" == "spi0" && "spi" + "_bus" == "spi_bus";
    }
    assert GeneratedBusId("spi", 0) == "spi_bus0" by {
      assert Decimal(0) == "0" && "spi_bus" + "0" == "spi_bus0";
    }
    assert FreeBusIdFor("spi", {"spi0"}) == "spi_bus0" by {
      assert "spi_bus0" != "spi0";
    }
    var start := Plan(map[], {"spi0"});
    assert BusIdsOf(WithSpi0(components)) == {"spi0"} && KindOf(buses[0]) == "spi";
    assert PlanAfter(AsBus, RESERVED_BUS_IDS, buses, 1, start) == PlanStep(AsBus, RESERVED_BUS_IDS, buses[0], start);
  }

  /** Two namespaces can meet: here the repair gives the bus the component's id. */
  lemma NamespacesCanMerge()
    ensures
      var doc := WithSpi0([Named("spi_bus0")]);
      && HasSections(doc) && ComponentIdsOf(doc) == {"spi_bus0"} && BusIdsOf(doc) == {"spi0"}
      && ReservedRenames(doc) == map["spi0" := "spi_bus0"]
      && "spi_bus0" in ComponentIdsOf(RenameReservedBusIds(doc)) * BusIdsOf(RenameReservedBusIds(doc))
  {
    var doc := WithSpi0([Named("spi_bus0")]);
    Spi0IsRenamed([Named("spi_bus0")]);
    assert IdOf(ItemsOf(doc, "components")[0]) == Some("spi_bus0");
    assert ComponentIdsOf(doc) == {"spi_bus0"};
    hide ReservedRenames, ApplyIdRenames;
    SectionIds(doc, ReservedRenames(doc), "components", "spi_bus0");
    SectionIds(doc, ReservedRenames(doc), "buses", "spi_bus0");
    assert Renamed(map["spi0" := "spi_bus0"], "spi_bus0") == "spi_bus0" == Renamed(map["spi0" := "spi_bus0"], "spi0");
  }

  /** A component that shares the bus's id is renamed onto its sibling: two components end up
      with one id, and the reference that named the first names both. */
  lemma SiblingsCanMerge()
    ensures
      var doc := WithSpi0([Named("spi0"), Named("spi_bus0")]);
      && HasSections(doc) && "spi0" in ComponentIdsOf(doc) && "spi_bus0" in ComponentIdsOf(doc)
      && Renamed(ReservedRenames(doc), "spi0") == Renamed(ReservedRenames(doc), "spi_bus0")
      && !FollowsIn(doc, ReservedRenames(doc), "components", "spi0")
  {
    var components := [Named("spi0"), Named("spi_bus0")];
    var doc := WithSpi0(components);
    Spi0IsRenamed(components);
    assert ItemsOf(doc, "components") == components;
    assert IdOf(components[0]) == Some("spi0") && IdOf(components[1]) == Some("spi_bus0");
    hide ReservedRenames, FollowsIn;
    ComponentReferenceFollowsIff(doc, "spi0");
    assert "spi0" != "spi_bus0" by {
      assert |"spi0"| == 4 && |"spi_bus0"| == 8;
    }
  }

  // --------------------------------------------------------------- repair two

  function AllIds(doc: Object): set<string>
  {
    ComponentIdsOf(doc) + BusIdsOf(doc)
  }

  function IntegrationRenames(doc: Object, conflicts: set<string>): map<string, string>
  {
    var components, buses := ItemsOf(doc, "components"), ItemsOf(doc, "buses");
    var plan := PlanAfter(WithSuffix, conflicts, components, |components|, Plan(map[], AllIds(doc)));
    PlanAfter(AsBus, conflicts, buses, |buses|, plan).renames
  }

  method RepairIntegrationNames(doc: Object, conflicts: set<string>) returns (out: Object, changed: bool)
    ensures out == ApplyIdRenames(doc, IntegrationRenames(doc, conflicts))
    ensures changed <==> IntegrationRenames(doc, conflicts) != map[]
  {
    var plan := PlanRenames(WithSuffix, conflicts, ItemsOf(doc, "components"), Plan(map[], AllIds(doc)));
    plan := PlanRenames(AsBus, conflicts, ItemsOf(doc, "buses"), plan);
    out := ApplyIdRenames(doc, plan.renames);
    changed := plan.renames != map[];
  }

  lemma IntegrationPlan(doc: Object, conflicts: set<string>)
    ensures FreshRenames(IntegrationRenames(doc, conflicts), AllIds(doc))
    ensures IntegrationRenames(doc, conflicts).Keys == AllIds(doc) * conflicts
  {
    var components, buses := ItemsOf(doc, "components"), ItemsOf(doc, "buses");
    var start := Plan(map[], AllIds(doc));
    PlanIsFresh(WithSuffix, conflicts, components, |components|, start, AllIds(doc));
    var plan := PlanAfter(WithSuffix, conflicts, components, |components|, start);
    PlanIsFresh(AsBus, conflicts, buses, |buses|, plan, AllIds(doc));
    assert components[..|components|] == components && buses[..|buses|] == buses;
  }

  lemma IntegrationNamesUnreserved(doc: Object, conflicts: set<string>)
    ensures IntegrationRenames(doc, conflicts).Values !! RESERVED_BUS_IDS
  {
    var components, buses := ItemsOf(doc, "components"), ItemsOf(doc, "buses");
    var start := Plan(map[], AllIds(doc));
    PlannedNamesUnreserved(WithSuffix, conflicts, components, |components|, start);
    var plan := PlanAfter(WithSuffix, conflicts, components, |components|, start);
    PlannedNamesUnreserved(AsBus, conflicts, buses, |buses|, plan);
  }

  /** The second repair checks names against both kinds of id, so no condition on the
      namespaces is needed: every resolving reference follows. */
  lemma IntegrationRepairKeepsReferences(doc: Object, conflicts: set<string>, section: string, i: nat, s: string)
    requires HasSections(doc) && section in {"components", "buses"}
    requires s in AllIds(doc) || s !in IntegrationRenames(doc, conflicts).Values
    ensures
      var renames := IntegrationRenames(doc, conflicts);
      Names(doc, section, i, s) <==> Names(ApplyIdRenames(doc, renames), section, i, Renamed(renames, s))
  {
    var renames := IntegrationRenames(doc, conflicts);
    IntegrationPlan(doc, conflicts);
    forall x | x in IdsOf(ItemsOf(doc, section)) && Renamed(renames, x) == Renamed(renames, s) ensures x == s {
      RenameIsInjective(renames, AllIds(doc), x, s);
    }
    ReferenceFollows(doc, renames, section, i, s);
  }
}
