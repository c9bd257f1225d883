/** A design with so many buses that adding a part gives a bus id out twice
    (wirestudio/designs/seed.py:119-125). */
module CrowdedDesign {
  import opened Options
  import opened Text
  import opened DesignModel
  import opened PinSolver
  import opened DesignEdits
  import opened DesignInvariant

  /** Buses named i2c_1, i2c_2, ... that are no i2c buses. */
  function Crowd(n: nat): seq<Bus>
  {
    seq(n, i requires 0 <= i < n => Bus(Numbered("i2c_", i + 1), "can", map[]))
  }

  const SDA := LibPin("SDA", "i2c_sda", false, false, false, false, None)
  const CROWDED := Design(Some("b"), [], Crowd(1000), [])

  function CrowdedEnv(order: set<string> -> seq<string>): Env
  {
    Env(Library(map["b" := Board("esp32", [], [], map[])],
                map["part" := LibComponent("part", "sensor", [SDA], None, None)]),
        order, (d, id) => false)
  }

  lemma CrowdIsDistinct(n: nat)
    ensures DistinctBuses(Crowd(n))
  {
    hide Numbered;
    forall i, j | 0 <= i < j < n ensures Crowd(n)[i].id != Crowd(n)[j].id {
      if Numbered("i2c_", i + 1) == Numbered("i2c_", j + 1) {
        NumberedDiffers("i2c_", i + 1, j + 1);
      }
    }
  }

  lemma CrowdTakes(n: nat, k: nat)
    requires 1 <= k <= n
    ensures Numbered("i2c_", k) in BusIdSet(Crowd(n))
  {
    hide Numbered;
    assert Crowd(n)[k - 1] in Crowd(n);
  }

  /** All names are taken, the fallback for a thousand buses too. */
  lemma NamesRunOut()
    ensures DistinctBuses(Crowd(1000)) && NamesTaken(Crowd(1000), "i2c", 1000)
    ensures NextBusId(Crowd(1000), "i2c") in BusIdSet(Crowd(1000))
  {
    CrowdIsDistinct(1000);
    assert "i2c" + "_" == "i2c_";
    forall name | name in NamesUpTo("i2c_", 999) ensures name in BusIdSet(Crowd(1000)) {
      var k :| 1 <= k <= 999 && name == Numbered("i2c_", k);
      CrowdTakes(1000, k);
    }
    CrowdTakes(1000, 1000);
    hide Numbered, BusIdSet, NextBusId;
    NextBusIdCollidesIff(Crowd(1000), "i2c");
  }

  /** The design is sound, and adding an I2C part to it leaves it with two buses of one id. */
  lemma AddBreaksACrowd(order: set<string> -> seq<string>)
    requires Enumerates(order)
    ensures Inv(CROWDED) && !Inv(AddKnown(CrowdedEnv(order), CROWDED, "part", "").design)
  {
    var env := CrowdedEnv(order);
    NamesRunOut();
    hide NamesTaken, AddKnown, Crowd;
    assert Inv(CROWDED);
    NeedsI2c(order);
    AddKeepsIff(env, CROWDED, "part", "");
  }

  lemma NeedsI2c(order: set<string> -> seq<string>)
    requires Enumerates(order) && NamesTaken(Crowd(1000), "i2c", 1000)
    ensures !SeedsFresh(CrowdedEnv(order), CROWDED, "part")
  {
    var entry := CrowdedEnv(order).library.components["part"];
    assert BusTypeForPin(SDA.kind) == Some("i2c") && SDA in entry.pins;
    assert NeededBusTypes(entry.pins) == {"i2c"};
    assert "i2c" !in BusKinds(CROWDED.buses) by {
      assert "can"[0] != "i2c"[0];
    }
    var kinds := SeedTypes(CrowdedEnv(order), CROWDED.buses, entry);
    hide NamesTaken, Crowd, BusKinds;
    assert NeededBusTypes(entry.pins) - BusKinds(CROWDED.buses) == {"i2c"};
    OnlyOne(order, "i2c");
    assert kinds == ["i2c"];
    LengthOfCrowd();
    assert NamesTaken(CROWDED.buses, kinds[0], |CROWDED.buses| + 0);
  }

  lemma LengthOfCrowd()
    ensures |Crowd(1000)| == 1000
  {
  }

  lemma OnlyOne(order: set<string> -> seq<string>, x: string)
    requires Enumerates(order)
    ensures order({x}) == [x]
  {
    var s := order({x});
    assert x in s;
    HeadsAgree(s, x);
    HeadsDiffer(s);
  }

  lemma HeadsAgree(s: seq<string>, x: string)
    requires forall y :: y in s ==> y == x
    ensures |s| > 0 ==> s[0] == x
    ensures |s| <= 1 || s[0] == s[1]
  {
    if |s| > 0 {
      assert s[0] in s;
      if |s| > 1 {
        assert s[1] in s;
      }
    }
  }

  lemma HeadsDiffer(s: seq<string>)
    requires forall i, j :: 0 <= i < j < |s| ==> s[i] != s[j]
    ensures |s| <= 1 || s[0] != s[1]
  {
  }
}
