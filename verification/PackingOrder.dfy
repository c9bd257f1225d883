/** Which parts a packing carries and in which group each of them is
    (scripts/build_lorawan_firmware.py:51-83). */
module PackingOrder {
  import opened Options
  import opened FirmwarePacker

  // ------------------------------------------------------------ what is packed

  predicate FirstHubPin(pins: seq<Pin>, k: int)
  {
    0 <= k < |pins| && pins[k].kind == "hub_ref" && forall j :: 0 <= j < k ==> pins[j].kind != "hub_ref"
  }

  /** The first hub pin decides: the part is on this hub. */
  ghost predicate OnHubOf(pins: seq<Pin>, hub: string)
  {
    exists k :: FirstHubPin(pins, k) && pins[k].parent == Some(hub)
  }

  /** Some part of the library rides on this one. */
  ghost predicate IsRiddenOn(lib: Lib, id: string)
  {
    exists i, j :: 0 <= i < |lib| && 0 <= j < |lib[i].pins| && lib[i].pins[j] == Pin("hub_ref", Some(id))
  }

  /** The part has a block, reports nothing the board reports, and is on a hub or hosts no one. */
  ghost predicate OwnRight(lib: Lib, board: set<string>, p: Part)
  {
    && p.radio.Some? && (forall x | x in p.radio.value.fields :: x !in board)
    && ((exists hub :: OnHubOf(p.pins, hub)) || !IsRiddenOn(lib, p.id))
  }

  lemma {:induction false} HubIsFirst(pins: seq<Pin>)
    ensures forall hub :: OnHubOf(pins, hub) <==> HubOf(pins) == Some(hub)
  {
    if pins != [] {
      if pins[0].kind == "hub_ref" {
        assert forall k :: FirstHubPin(pins, k) <==> k == 0;
      } else {
        HubIsFirst(pins[1..]);
        HubPinsOfRest(pins);
      }
    }
  }

  lemma HubPinsOfRest(pins: seq<Pin>)
    requires pins != [] && pins[0].kind != "hub_ref"
    ensures forall hub :: OnHubOf(pins, hub) <==> OnHubOf(pins[1..], hub)
  {
    var rest := pins[1..];
    forall k | FirstHubPin(pins, k) ensures FirstHubPin(rest, k - 1) && rest[k - 1] == pins[k] {
      assert forall j :: 0 <= j < k - 1 ==> rest[j] == pins[j + 1];
    }
    forall k | FirstHubPin(rest, k) ensures FirstHubPin(pins, k + 1) && pins[k + 1] == rest[k] {
      forall j | 0 <= j < k + 1 ensures pins[j].kind != "hub_ref" {
        assert j > 0 ==> pins[j] == rest[j - 1];
      }
    }
  }

  lemma HostsExactly(lib: Lib, id: string)
    ensures Hosts(lib, id) <==> IsRiddenOn(lib, id)
  {
    if i, j :| 0 <= i < |lib| && 0 <= j < |lib[i].pins| && lib[i].pins[j] == Pin("hub_ref", Some(id)) {
      assert lib[i] in lib && lib[i].pins[j] in lib[i].pins;
    }
  }

  lemma PacksExactly(lib: Lib, board: set<string>, p: Part)
    ensures Packs(lib, board, p) <==> OwnRight(lib, board, p)
  {
    HubIsFirst(p.pins);
    HostsExactly(lib, p.id);
    hide Hosts, IsRiddenOn, HubOf, OnHubOf;
    if HubOf(p.pins).Some? {
      assert OnHubOf(p.pins, HubOf(p.pins).value);
    }
  }

  /** Part i goes in for itself, under this id or with this hub. */
  ghost predicate Brings(lib: Lib, board: set<string>, i: int, id: string)
  {
    0 <= i < |lib| && OwnRight(lib, board, lib[i]) && (lib[i].id == id || OnHubOf(lib[i].pins, id))
  }

  lemma BringsIsIn(lib: Lib, board: set<string>, i: nat, id: string)
    ensures Brings(lib, board, i, id) <==>
      i < |lib| && Packs(lib, board, lib[i]) && (lib[i].id == id || HubOf(lib[i].pins) == Some(id))
  {
    hide Packs, OwnRight, HubOf, OnHubOf;
    if i < |lib| {
      PacksExactly(lib, board, lib[i]);
      HubIsFirst(lib[i].pins);
    }
  }

  /** The packing carries exactly the parts to be packed in their own right and the hubs they
      are on. */
  lemma CarriedExactly(lib: Lib, board: set<string>, id: string)
    requires Sound(lib, board)
    ensures (exists k :: 0 <= k < |Pack(lib, board, |lib|)| && id in Pack(lib, board, |lib|)[k].members)
       <==> exists i :: Brings(lib, board, i, id)
  {
    hide Pack, Sound, Packs, HubOf, OwnRight, OnHubOf;
    var groups := Pack(lib, board, |lib|);
    PackingIsSound(lib, board, |lib|);
    if k :| 0 <= k < |groups| && id in groups[k].members {
      assert GroupOk(lib, board, groups[k], |lib|);
      var i: nat :| i < |lib| && In(lib, board, groups[k], i) && (lib[i].id == id || HubOf(lib[i].pins) == Some(id));
      BringsIsIn(lib, board, i, id);
    }
    if i :| Brings(lib, board, i, id) {
      BringsIsIn(lib, board, i, id);
      var k :| 0 <= k < |groups| && In(lib, board, groups[k], i);
      assert GroupOk(lib, board, groups[k], |lib|);
      assert id in groups[k].members;
    }
  }

  // --------------------------------------------------------------- first fit

  /** Later members only make a group fuller: what did not fit does not fit after a part, and
      its hub, have joined. */
  lemma FullStaysFull(lib: Lib, g: Group, p: Part, q: Part)
    requires p.radio.Some? && q.radio.Some? && p.id !in g.members && !Fits(lib, g, q)
    ensures !Fits(lib, Join(lib, g, p), q)
  {
    UnitUarts(lib, p);
    MissingOfUnit(p, g.members);
    hide Uarts, Unit, Missing, HubOf;
    NewUartsNatural(lib, g, p);
  }

  /** No packed part would fit a group before its own. */
  ghost predicate Tight(lib: Lib, board: set<string>, groups: seq<Group>, n: nat)
    requires n <= |lib|
  {
    forall i, k, l | 0 <= i < n && 0 <= l < k < |groups| && In(lib, board, groups[k], i) ::
      !Fits(lib, groups[l], lib[i])
  }

  lemma PlacedTight(lib: Lib, board: set<string>, groups: seq<Group>, n: nat)
    requires Sound(lib, board) && n < |lib| && Packs(lib, board, lib[n])
    requires PackingOk(lib, board, groups, n) && Tight(lib, board, groups, n)
    ensures Tight(lib, board, PackOne(lib, groups, lib[n]), n + 1)
  {
    var p := lib[n];
    var at, after := FirstFit(lib, groups, p), PackOne(lib, groups, p);
    hide Packs, Fits, Join, Start;
    forall k | 0 <= k < |groups| ensures p.id !in groups[k].members {
      assert GroupOk(lib, board, groups[k], n);
      NotYetIn(lib, board, groups[k], n);
    }
    forall i, k, l | 0 <= i < n + 1 && 0 <= l < k < |after| && In(lib, board, after[k], i)
      ensures !Fits(lib, after[l], lib[i])
    {
      if i == n {
        assert k == at;
      } else {
        WasIn(lib, board, groups, n, k, i);
        assert !Fits(lib, groups[l], lib[i]);
        if l == at {
          FullStaysFull(lib, groups[l], p, lib[i]);
        }
      }
    }
  }

  /** A part packed before was in the same group before. */
  lemma WasIn(lib: Lib, board: set<string>, groups: seq<Group>, n: nat, k: nat, i: nat)
    requires Sound(lib, board) && i < n < |lib| && Packs(lib, board, lib[n]) && PackingOk(lib, board, groups, n)
    requires k < |PackOne(lib, groups, lib[n])| && In(lib, board, PackOne(lib, groups, lib[n])[k], i)
    ensures k < |groups| && In(lib, board, groups[k], i)
  {
    var p := lib[n];
    hide Packs, Fits, Uarts;
    NoSelfHub(lib, board, p);
    if FirstFit(lib, groups, p) == k {
      if k < |groups| {
        assert GroupOk(lib, board, groups[k], n);
        NotYetIn(lib, board, groups[k], n);
        JoinExtends(lib, groups[k], p);
        StaysIn(lib, board, groups[k], n, Join(lib, groups[k], p), i);
      } else {
        StartExtends(lib, p);
        StaysIn(lib, board, Group({}, 0, []), n, Start(lib, p), i);
      }
    }
  }

  lemma {:induction false} PackingIsTight(lib: Lib, board: set<string>, n: nat)
    requires Sound(lib, board) && n <= |lib|
    ensures Tight(lib, board, Pack(lib, board, n), n)
  {
    hide Sound, Packs, PackOne, Fits, PackingOk;
    if n > 0 {
      PackingIsTight(lib, board, n - 1);
      PackingIsSound(lib, board, n - 1);
      if Packs(lib, board, lib[n - 1]) {
        PlacedTight(lib, board, Pack(lib, board, n - 1), n - 1);
      }
    }
  }

  /** The part cannot be added to these members: a field of its would be reported twice, or its
      unit, where it is not there yet, would need more than two UARTs with them. */
  ghost predicate NoRoom(lib: Lib, board: set<string>, members: seq<string>, p: Part)
    requires p.radio.Some?
  {
    || (exists i, x :: 0 <= i < |lib| && Packs(lib, board, lib[i]) && lib[i].id in members
          && x in lib[i].radio.value.fields && x in p.radio.value.fields)
    || Uarts(lib, members + Missing(Unit(p), members)) > 2
  }

  lemma NoFitNoRoom(lib: Lib, board: set<string>, g: Group, p: Part)
    requires GroupOk(lib, board, g, |lib|) && p.radio.Some? && p.id !in g.members && !Fits(lib, g, p)
    ensures NoRoom(lib, board, g.members, p)
  {
    hide Hosts, HubOf, Uarts, Unit, Missing;
    JoinCounts(lib, g, p);
    NewUartsNatural(lib, g, p);
    if x :| x in g.names && x in p.radio.value.fields {
      var i :| 0 <= i < |lib| && In(lib, board, g, i) && x in lib[i].radio.value.fields;
      assert lib[i].id in g.members;
    }
  }

  lemma InOneGroup(lib: Lib, board: set<string>, groups: seq<Group>, i: nat, k: nat, l: nat)
    requires PackingOk(lib, board, groups, |lib|) && i < |lib| && l < k < |groups| && In(lib, board, groups[k], i)
    ensures lib[i].id !in groups[l].members && GroupOk(lib, board, groups[l], |lib|)
  {
    hide GroupOk, Packs;
    assert !In(lib, board, groups[l], i);
  }

  /** First fit, read off the finished packing: no packed part could be moved to an earlier
      group. */
  lemma NoEarlierRoom(lib: Lib, board: set<string>, i: nat, k: nat, l: nat)
    requires Sound(lib, board) && l < k < |Pack(lib, board, |lib|)| && i < |lib|
    requires Packs(lib, board, lib[i]) && lib[i].id in Pack(lib, board, |lib|)[k].members
    ensures NoRoom(lib, board, Pack(lib, board, |lib|)[l].members, lib[i])
  {
    hide Pack, Sound, Hosts, HubOf, Fits, NoRoom, PackingOk, GroupOk;
    var groups := Pack(lib, board, |lib|);
    PackingIsTight(lib, board, |lib|);
    PackingIsSound(lib, board, |lib|);
    assert In(lib, board, groups[k], i);
    InOneGroup(lib, board, groups, i, k, l);
    assert !Fits(lib, groups[l], lib[i]);
    NoFitNoRoom(lib, board, groups[l], lib[i]);
  }

  // -------------------------------------------------------------- UART pairs

  /** Who draws a pair of UART pins: the members with a transmit or receive pin. */
  lemma {:induction false} DrawsExactly(lib: Lib, members: seq<string>, id: string)
    ensures id in Drawers(lib, members) <==>
      id in members && Find(lib, id).Some?
      && exists pin :: pin in Find(lib, id).value.pins && pin.kind in {"uart_tx", "uart_rx"}
  {
    if members != [] {
      DrawsExactly(lib, members[..|members| - 1], id);
      assert members == members[..|members| - 1] + [members[|members| - 1]];
    }
  }
}
