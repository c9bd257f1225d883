/** `_deep_merge` and the fold `build_yaml_dict` makes with it
    (wirestudio/generate/yaml_gen.py:168-176, 426-535, 653-667). */
module ConfigMerge {
  import opened Options

  /** A rendered fragment: blocks, lists, and everything else opaque. */
  datatype Node =
    | Block(fields: map<string, Node>)
    | List(items: seq<Node>)
    | Leaf(value: int)

  // ------------------------------------------------------------------- merge

  /** What a value ends up as when another arrives under its key. */
  function Merge(a: Node, b: Node): Node
  {
    if a.List? && b.List? then List(a.items + b.items)
    else if a.Block? && b.Block? then
      Block(map k | k in a.fields.Keys + b.fields.Keys ::
        if k !in a.fields then b.fields[k]
        else if k !in b.fields then a.fields[k]
        else Merge(a.fields[k], b.fields[k]))
    else b
  }

  /** The loop: the source's entries go into the destination one by one. */
  method DeepMerge(into: Node, src: Node) returns (dst: Node)
    requires into.Block? && src.Block?
    ensures dst == Merge(into, src)
  {
    dst := into;
    var todo := src.fields.Keys;
    while todo != {}
      invariant todo <= src.fields.Keys && dst.Block?
      invariant dst.fields.Keys == into.fields.Keys + (src.fields.Keys - todo)
      invariant forall k | k in dst.fields && (k in todo || k !in src.fields) :: dst.fields[k] == into.fields[k]
      invariant forall k | k in src.fields && k !in todo :: dst.fields[k] == Merge(into, src).fields[k]
      decreases todo
    {
      var k :| k in todo;
      var v := src.fields[k];
      if k in dst.fields && dst.fields[k].List? && v.List? {
        dst := Block(dst.fields[k := List(dst.fields[k].items + v.items)]);
      } else if k in dst.fields && dst.fields[k].Block? && v.Block? {
        var inner := DeepMerge(dst.fields[k], v);
        dst := Block(dst.fields[k := inner]);
      } else {
        dst := Block(dst.fields[k := v]);
      }
      todo := todo - {k};
    }
  }

  // ----------------------------------------------------------- associativity

  /** c overrides or contains everything a says, so merging a under c changes nothing. */
  predicate Absorbs(c: Node, a: Node)
  {
    if a.List? && c.List? then a.items == []
    else if a.Block? && c.Block? then
      forall k :: k in a.fields ==> k in c.fields && Absorbs(c.fields[k], a.fields[k])
    else true
  }

  lemma {:induction false} AbsorbsExactly(c: Node, a: Node)
    ensures Absorbs(c, a) <==> Merge(a, c) == c
  {
    if a.Block? && c.Block? {
      var m := Merge(a, c);
      forall k | k in a.fields && k in c.fields
        ensures Absorbs(c.fields[k], a.fields[k]) <==> m.fields[k] == c.fields[k]
      {
        AbsorbsExactly(c.fields[k], a.fields[k]);
      }
      assert m == c <==> m.fields == c.fields;
      if Absorbs(c, a) {
        assert m.fields.Keys == c.fields.Keys;
      } else {
        var k :| k in a.fields && !(k in c.fields && Absorbs(c.fields[k], a.fields[k]));
        assert k in m.fields;
      }
    } else if a.List? && c.List? {
      assert |a.items + c.items| == |a.items| + |c.items|;
    }
  }

  /** The three values can be merged in either grouping: going down while all three are
      blocks, nowhere does b interrupt two lists or two blocks that would have joined. */
  predicate Associates(a: Node, b: Node, c: Node)
  {
    if a.Block? && b.Block? && c.Block? then
      forall k :: k in a.fields && k in b.fields && k in c.fields ==>
        Associates(a.fields[k], b.fields[k], c.fields[k])
    else if (a.List? && !b.List? && c.List?) || (a.Block? && !b.Block? && c.Block?) then Absorbs(c, a)
    else true
  }

  /** Merging is associative exactly there. */
  lemma {:induction false} AssociativeIff(a: Node, b: Node, c: Node)
    ensures Associates(a, b, c) <==> Merge(Merge(a, b), c) == Merge(a, Merge(b, c))
    decreases a, 1
  {
    if a.Block? && b.Block? && c.Block? {
      BlocksAssociate(a, b, c);
    } else if (a.List? && !b.List? && c.List?) || (a.Block? && !b.Block? && c.Block?) {
      AbsorbsExactly(c, a);
    } else if a.List? && b.List? && c.List? {
      assert (a.items + b.items) + c.items == a.items + (b.items + c.items);
    }
  }

  lemma {:induction false} BlocksAssociate(a: Node, b: Node, c: Node)
    requires a.Block? && b.Block? && c.Block?
    ensures Associates(a, b, c) <==> Merge(Merge(a, b), c) == Merge(a, Merge(b, c))
    decreases a, 0
  {
    var left, right := Merge(Merge(a, b), c).fields, Merge(a, Merge(b, c)).fields;
    assert left.Keys == right.Keys == a.fields.Keys + b.fields.Keys + c.fields.Keys;
    forall k | k in left
      ensures left[k] == right[k] <==>
        (k in a.fields && k in b.fields && k in c.fields ==> Associates(a.fields[k], b.fields[k], c.fields[k]))
    {
      if k in a.fields && k in b.fields && k in c.fields {
        AssociativeIff(a.fields[k], b.fields[k], c.fields[k]);
      }
    }
    if left == right {
      assert Associates(a, b, c);
    } else {
      var k :| k in left && left[k] != right[k];
      assert !Associates(a, b, c);
    }
  }

  // -------------------------------------------------------- agreeing fragments

  /** The two have the same shape wherever both say something. */
  predicate Agree(a: Node, b: Node)
  {
    if a.Block? && b.Block? then forall k :: k in a.fields && k in b.fields ==> Agree(a.fields[k], b.fields[k])
    else (a.List? && b.List?) || (a.Leaf? && b.Leaf?)
  }

  lemma {:induction false} AgreeingAssociate(a: Node, b: Node, c: Node)
    requires Agree(a, b) && Agree(b, c)
    ensures Associates(a, b, c)
  {
    if a.Block? {
      forall k | k in a.fields && k in b.fields && k in c.fields
        ensures Associates(a.fields[k], b.fields[k], c.fields[k])
      {
        AgreeingAssociate(a.fields[k], b.fields[k], c.fields[k]);
      }
    }
  }

  lemma {:induction false} MergedAgrees(a: Node, b: Node, c: Node)
    requires Agree(a, b) && Agree(a, c) && Agree(b, c)
    ensures Agree(Merge(a, b), c)
  {
    if a.Block? {
      var m := Merge(a, b);
      forall k | k in m.fields && k in c.fields ensures Agree(m.fields[k], c.fields[k]) {
        if k in a.fields && k in b.fields {
          MergedAgrees(a.fields[k], b.fields[k], c.fields[k]);
        }
      }
    }
  }

  /** The list at a key path, empty when there is none. */
  function ListAt(n: Node, path: seq<string>): seq<Node>
    decreases path
  {
    if path == [] then if n.List? then n.items else []
    else if n.Block? && path[0] in n.fields then ListAt(n.fields[path[0]], path[1..])
    else []
  }

  lemma {:induction false} MergeJoinsLists(a: Node, b: Node, path: seq<string>)
    requires Agree(a, b)
    ensures ListAt(Merge(a, b), path) == ListAt(a, path) + ListAt(b, path)
    decreases path
  {
    if path != [] && a.Block? && path[0] in a.fields && path[0] in b.fields {
      MergeJoinsLists(a.fields[path[0]], b.fields[path[0]], path[1..]);
    }
  }

  /** The document so far, the components' fragments in design order, the extras last. */
  function MergeAll(fragments: seq<Node>, n: nat): Node
    requires 0 < n <= |fragments|
  {
    if n == 1 then fragments[0] else Merge(MergeAll(fragments, n - 1), fragments[n - 1])
  }

  function ListsAt(fragments: seq<Node>, n: nat, path: seq<string>): seq<Node>
    requires n <= |fragments|
  {
    if n == 0 then [] else ListsAt(fragments, n - 1, path) + ListAt(fragments[n - 1], path)
  }

  ghost predicate AllAgree(fragments: seq<Node>)
  {
    forall i, j :: 0 <= i < j < |fragments| ==> Agree(fragments[i], fragments[j])
  }

  lemma {:induction false} MergedAgreesWithNext(fragments: seq<Node>, n: nat, j: nat)
    requires AllAgree(fragments) && 0 < n <= j < |fragments|
    ensures Agree(MergeAll(fragments, n), fragments[j])
  {
    if n > 1 {
      MergedAgreesWithNext(fragments, n - 1, n - 1);
      MergedAgreesWithNext(fragments, n - 1, j);
      MergedAgrees(MergeAll(fragments, n - 1), fragments[n - 1], fragments[j]);
    }
  }

  /** No contribution is lost: at every key path the merged document's list is all the
      fragments' lists, in order. */
  lemma {:induction false} NothingIsLost(fragments: seq<Node>, n: nat, path: seq<string>)
    requires AllAgree(fragments) && 0 < n <= |fragments|
    ensures ListAt(MergeAll(fragments, n), path) == ListsAt(fragments, n, path)
  {
    if n > 1 {
      NothingIsLost(fragments, n - 1, path);
      MergedAgreesWithNext(fragments, n - 1, n - 1);
      MergeJoinsLists(MergeAll(fragments, n - 1), fragments[n - 1], path);
    } else {
      assert ListsAt(fragments, 0, path) == [];
    }
  }

  // ------------------------------------------------------- the LoRaWAN blocks

  /** What `_emit_lorawan_blocks` has to say: the external component, then, on a board with a
      radio, the `lorawan:` block and one sensor for each payload field. */
  datatype Radio = Radio(block: Node, sensors: seq<Node>)

  datatype Lora = Lora(source: Node, radio: Option<Radio>)

  /** `out.setdefault(key, []).append(item)` for each item; the value there must be a list. */
  function Appended(out: Node, key: string, items: seq<Node>): Node
    requires out.Block? && (key in out.fields ==> out.fields[key].List?)
  {
    Block(out.fields[key := List((if key in out.fields then out.fields[key].items else []) + items)])
  }

  lemma AppendedTwice(out: Node, key: string, items: seq<Node>, item: Node)
    requires out.Block? && (key in out.fields ==> out.fields[key].List?)
    ensures Appended(Appended(out, key, items), key, [item]) == Appended(out, key, items + [item])
  {
    var have := if key in out.fields then out.fields[key].items else [];
    assert (have + items) + [item] == have + (items + [item]);
  }

  /** What is appended to must be a list; anything else raises. */
  predicate CanEmit(out: Node, lora: Lora)
  {
    && out.Block?
    && ("external_components" in out.fields ==> out.fields["external_components"].List?)
    && (lora.radio.Some? && lora.radio.value.sensors != [] && "sensor" in out.fields ==> out.fields["sensor"].List?)
  }

  lemma KeysApart()
    ensures "external_components" != "lorawan" && "lorawan" != "sensor" && "sensor" != "external_components"
  {
    assert |"external_components"| == 19 && |"lorawan"| == 7 && |"sensor"| == 6;
  }

  function Emitted(out: Node, lora: Lora): Node
    requires CanEmit(out, lora)
  {
    KeysApart();
    var first := Appended(out, "external_components", [lora.source]);
    if lora.radio.None? then first
    else
      var second := Block(first.fields["lorawan" := lora.radio.value.block]);
      if lora.radio.value.sensors == [] then second else Appended(second, "sensor", lora.radio.value.sensors)
  }

  /** The same as a fragment. */
  function LoraFragment(lora: Lora): Node
  {
    var first := map["external_components" := List([lora.source])];
    if lora.radio.None? then Block(first)
    else
      var second := first["lorawan" := lora.radio.value.block];
      Block(if lora.radio.value.sensors == [] then second else second["sensor" := List(lora.radio.value.sensors)])
  }

  lemma AppendedAt(out: Node, key: string, items: seq<Node>, k: string)
    requires out.Block? && (key in out.fields ==> out.fields[key].List?)
    ensures k in Appended(out, key, items).fields <==> k in out.fields || k == key
    ensures k != key && k in out.fields ==> Appended(out, key, items).fields[k] == out.fields[k]
    ensures Appended(out, key, items).fields[key]
         == if key in out.fields then Merge(out.fields[key], List(items)) else List(items)
  {
    assert [] + items == items;
  }

  /** Key by key, emitting is merging, the assigned block aside. */
  lemma EmittedAt(out: Node, lora: Lora, k: string)
    requires CanEmit(out, lora)
    ensures
      var e, m := Emitted(out, lora).fields, Merge(out, LoraFragment(lora)).fields;
      (k in e <==> k in m) && (k in e && !(k == "lorawan" && lora.radio.Some?) ==> e[k] == m[k])
  {
    KeysApart();
    var first := Appended(out, "external_components", [lora.source]);
    AppendedAt(out, "external_components", [lora.source], k);
    AppendedAt(out, "external_components", [lora.source], "sensor");
    hide Appended;
    if lora.radio.Some? && lora.radio.value.sensors != [] {
      var second := Block(first.fields["lorawan" := lora.radio.value.block]);
      AppendedAt(second, "sensor", lora.radio.value.sensors, k);
    }
  }

  /** Emitting is merging that fragment exactly when the block, which is assigned outright,
      leaves nothing behind of what was under its key. */
  lemma EmitIsMergeIff(out: Node, lora: Lora)
    requires CanEmit(out, lora)
    ensures Emitted(out, lora) == Merge(out, LoraFragment(lora)) <==>
      (lora.radio.Some? && "lorawan" in out.fields ==> Absorbs(lora.radio.value.block, out.fields["lorawan"]))
  {
    var e, m := Emitted(out, lora).fields, Merge(out, LoraFragment(lora)).fields;
    forall k ensures (k in e <==> k in m) && (k in e && !(k == "lorawan" && lora.radio.Some?) ==> e[k] == m[k]) {
      EmittedAt(out, lora, k);
    }
    if lora.radio.Some? {
      BlockAt(out, lora);
    }
    hide Emitted, LoraFragment, Merge;
    if lora.radio.Some? && "lorawan" in out.fields {
      AbsorbsExactly(lora.radio.value.block, out.fields["lorawan"]);
    }
    assert e.Keys == m.Keys;
  }

  lemma BlockAt(out: Node, lora: Lora)
    requires CanEmit(out, lora) && lora.radio.Some?
    ensures
      var e, m := Emitted(out, lora).fields, Merge(out, LoraFragment(lora)).fields;
      && "lorawan" in e && "lorawan" in m && e["lorawan"] == lora.radio.value.block
      && m["lorawan"] == if "lorawan" in out.fields
                         then Merge(out.fields["lorawan"], lora.radio.value.block) else lora.radio.value.block
  {
    KeysApart();
  }

  /** What the end of `build_yaml_dict` needs of its inputs. */
  predicate Buildable(fragments: seq<Node>, lora: Option<Lora>)
  {
    && fragments != [] && (forall f | f in fragments :: f.Block?)
    && (lora.Some? ==> CanEmit(MergeAll(fragments, |fragments|), lora.value))
  }

  /** The document so far and the components, the LoRaWAN blocks, the extras. */
  function Built(fragments: seq<Node>, lora: Option<Lora>, extras: Option<Node>): Node
    requires Buildable(fragments, lora)
  {
    var merged := MergeAll(fragments, |fragments|);
    var emitted := if lora.Some? then Emitted(merged, lora.value) else merged;
    if extras.Some? then Merge(emitted, extras.value) else emitted
  }

  method EmitLorawan(into: Node, lora: Lora) returns (out: Node)
    requires CanEmit(into, lora)
    ensures out == Emitted(into, lora)
  {
    KeysApart();
    out := Appended(into, "external_components", [lora.source]);
    if lora.radio.None? { return; }
    out := Block(out.fields["lorawan" := lora.radio.value.block]);
    ghost var before := out;
    var sensors := lora.radio.value.sensors;
    for n := 0 to |sensors|
      invariant out == if n == 0 then before else Appended(before, "sensor", sensors[..n])
    {
      assert sensors[..n + 1] == sensors[..n] + [sensors[n]];
      if n == 0 {
        assert sensors[..1] == [sensors[0]];
      } else {
        AppendedTwice(before, "sensor", sensors[..n], sensors[n]);
      }
      out := Appended(out, "sensor", [sensors[n]]);
    }
    assert sensors[..|sensors|] == sensors;
  }

  method BuildConfig(fragments: seq<Node>, lora: Option<Lora>, extras: Option<Node>) returns (out: Node)
    requires Buildable(fragments, lora)
    requires extras.Some? ==> extras.value.Block?
    ensures out == Built(fragments, lora, extras)
  {
    out := fragments[0];
    for n := 1 to |fragments|
      invariant out == MergeAll(fragments, n) && out.Block?
    {
      out := DeepMerge(out, fragments[n]);
    }
    if lora.Some? {
      out := EmitLorawan(out, lora.value);
    }
    if extras.Some? {
      out := DeepMerge(out, extras.value);
    }
  }

  /** All that has a say, in order. */
  function Sources(fragments: seq<Node>, lora: Option<Lora>, extras: Option<Node>): seq<Node>
  {
    fragments + (if lora.Some? then [LoraFragment(lora.value)] else []) + if extras.Some? then [extras.value] else []
  }

  lemma {:induction false} MergeAllPrefix(fragments: seq<Node>, more: seq<Node>, n: nat)
    requires 0 < n <= |fragments|
    ensures MergeAll(fragments + more, n) == MergeAll(fragments, n)
  {
    if n > 1 {
      MergeAllPrefix(fragments, more, n - 1);
    }
  }

  lemma {:induction false} MergedLacks(fragments: seq<Node>, n: nat, key: string)
    requires 0 < n <= |fragments| && forall f | f in fragments :: f.Block? && key !in f.fields
    ensures MergeAll(fragments, n).Block? && key !in MergeAll(fragments, n).fields
  {
    if n > 1 {
      MergedLacks(fragments, n - 1, key);
    }
  }

  lemma AgreeingAreBuildable(fragments: seq<Node>, lora: Option<Lora>, extras: Option<Node>)
    requires fragments != [] && (forall f | f in fragments :: f.Block?) && AllAgree(Sources(fragments, lora, extras))
    ensures Buildable(fragments, lora)
  {
    if lora.Some? {
      var all, n := Sources(fragments, lora, extras), |fragments|;
      assert all[..n] == fragments && all[n] == LoraFragment(lora.value) && all == fragments + all[n..];
      MergedAgreesWithNext(all, n, n);
      MergeAllPrefix(fragments, all[n..], n);
      var merged := MergeAll(fragments, n);
      KeysApart();
      assert Agree(merged, LoraFragment(lora.value)) && "external_components" in LoraFragment(lora.value).fields;
    }
  }

  lemma BuiltIsMerged(fragments: seq<Node>, lora: Option<Lora>, extras: Option<Node>)
    requires Buildable(fragments, lora) && forall f | f in fragments :: "lorawan" !in f.fields
    ensures
      var all := Sources(fragments, lora, extras);
      Built(fragments, lora, extras) == MergeAll(all, |all|)
  {
    hide Emitted, LoraFragment, CanEmit, Merge;
    var n := |fragments|;
    MergedLacks(fragments, n, "lorawan");
    var some := fragments + if lora.Some? then [LoraFragment(lora.value)] else [];
    MergeAllPrefix(fragments, some[n..], n);
    if lora.Some? {
      EmitIsMergeIff(MergeAll(fragments, n), lora.value);
      assert some[n..] == [LoraFragment(lora.value)];
      assert some[..n] == fragments;
    } else {
      assert some == fragments;
    }
    var all := Sources(fragments, lora, extras);
    if extras.Some? {
      assert all == some + [extras.value];
      MergeAllPrefix(some, [extras.value], |some|);
    } else {
      assert all == some;
    }
  }

  /** Nothing is lost in the whole document either: where the sources agree in shape and only
      the emitted blocks speak of `lorawan`, the list at every key path is the fragments', the
      LoRaWAN blocks' and the extras', in that order. */
  lemma BuiltLists(fragments: seq<Node>, lora: Option<Lora>, extras: Option<Node>, path: seq<string>)
    requires fragments != [] && (forall f | f in fragments :: f.Block? && "lorawan" !in f.fields)
    requires AllAgree(Sources(fragments, lora, extras))
    ensures Buildable(fragments, lora)
    ensures
      var all := Sources(fragments, lora, extras);
      ListAt(Built(fragments, lora, extras), path) == ListsAt(all, |all|, path)
  {
    AgreeingAreBuildable(fragments, lora, extras);
    BuiltIsMerged(fragments, lora, extras);
    var all := Sources(fragments, lora, extras);
    NothingIsLost(all, |all|, path);
  }
}
