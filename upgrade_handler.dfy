/** Offering, adding, removing and querying a player's upgrades
    (src/core/UpgradeHandler.ts). Upgrades are told apart by `id`. */
module UpgradeHandling {
  import opened Types
  import opened Upgrades

  /** Whether some upgrade in `us` has the given id (`some`). */
  function HasId(us: seq<Upgrade>, id: string): (r: bool)
    ensures r <==> exists k :: 0 <= k < |us| && us[k].id == id
  {
    if us == [] then false
    else
      var r := us[0].id == id || HasId(us[1..], id);
      assert r ==> exists k :: 0 <= k < |us| && us[k].id == id by {
        if us[0].id != id && r {
          var k :| 0 <= k < |us[1..]| && us[1..][k].id == id;
          assert us[k + 1].id == id;
        }
      }
      r
  }

  /** Whether a (possibly absent) upgrade list holds an entry with u's id. */
  predicate Holds(held: Option<seq<Upgrade>>, u: Upgrade)
  {
    held.Some? && HasId(held.value, u.id)
  }

  /** `us` with every entry whose id is `id` filtered out, order kept. */
  function WithoutId(us: seq<Upgrade>, id: string): (r: seq<Upgrade>)
    ensures !HasId(r, id)
    ensures |r| <= |us|
  {
    if us == [] then []
    else (if us[0].id == id then [] else [us[0]]) + WithoutId(us[1..], id)
  }

  /** Filtering keeps exactly the entries with other ids. */
  lemma {:induction false} WithoutIdMembers(us: seq<Upgrade>, id: string)
    ensures forall u <- WithoutId(us, id) :: u in us && u.id != id
    ensures forall u <- us :: u.id != id ==> u in WithoutId(us, id)
  {
    if us != [] {
      WithoutIdMembers(us[1..], id);
    }
  }

  /** Filtering distributes over concatenation, so the kept entries keep
      their relative order. */
  lemma {:induction false} WithoutIdAppend(a: seq<Upgrade>, b: seq<Upgrade>, id: string)
    ensures WithoutId(a + b, id) == WithoutId(a, id) + WithoutId(b, id)
  {
    if a == [] {
      assert a + b == b;
    } else {
      assert (a + b)[0] == a[0] && (a + b)[1..] == a[1..] + b;
      WithoutIdAppend(a[1..], b, id);
    }
  }

  /** A list without the id is left as it is. */
  lemma {:induction false} WithoutIdAbsent(us: seq<Upgrade>, id: string)
    requires !HasId(us, id)
    ensures WithoutId(us, id) == us
  {
    if us != [] {
      assert us[0].id != id;
      WithoutIdAbsent(us[1..], id);
    }
  }

  /** Removing twice is removing once. */
  lemma WithoutIdIdempotent(us: seq<Upgrade>, id: string)
    ensures WithoutId(WithoutId(us, id), id) == WithoutId(us, id)
  {
    WithoutIdAbsent(WithoutId(us, id), id);
  }

  /** The catalog entries the player does not hold, in catalog order. */
  function Unheld(catalog: seq<Upgrade>, held: Option<seq<Upgrade>>): (r: seq<Upgrade>)
    ensures |r| <= |catalog|
    ensures forall u <- r :: u in catalog && !Holds(held, u)
    ensures forall u <- catalog :: !Holds(held, u) ==> u in r
  {
    if catalog == [] then []
    else (if Holds(held, catalog[0]) then [] else [catalog[0]]) + Unheld(catalog[1..], held)
  }

  /** The catalog entries the random indexes select. */
  function Picks(catalog: seq<Upgrade>, draws: seq<nat>): (r: seq<Upgrade>)
    requires forall k :: 0 <= k < |draws| ==> draws[k] < |catalog|
    ensures |r| == |draws|
    ensures forall k :: 0 <= k < |draws| ==> r[k] == catalog[draws[k]]
  {
    if draws == [] then []
    else Picks(catalog, draws[..|draws| - 1]) + [catalog[draws[|draws| - 1]]]
  }

  /** The offer the drawing loop builds from a sequence of picks: each pick
      not yet offered is appended, until three are offered. */
  function Gather(picks: seq<Upgrade>): seq<Upgrade>
  {
    if picks == [] then []
    else
      var prior := Gather(picks[..|picks| - 1]);
      var u := picks[|picks| - 1];
      if |prior| >= 3 || u in prior then prior else prior + [u]
  }

  /** The offer has at most three entries, no repeats, each of them a pick;
      while it is short of three, every pick is in it. */
  lemma {:induction false} GatherShape(picks: seq<Upgrade>)
    ensures |Gather(picks)| <= 3
    ensures forall i, j :: 0 <= i < j < |Gather(picks)| ==> Gather(picks)[i] != Gather(picks)[j]
    ensures forall u <- Gather(picks) :: u in picks
    ensures |Gather(picks)| < 3 ==> forall u <- picks :: u in Gather(picks)
  {
    if picks != [] {
      var init := picks[..|picks| - 1];
      GatherShape(init);
      assert picks == init + [picks[|picks| - 1]];
    }
  }

  /** Once the offer is full, later picks do not change it. */
  lemma {:induction false} GatherSaturated(picks: seq<Upgrade>, n: nat)
    requires n <= |picks|
    requires |Gather(picks[..n])| >= 3
    ensures Gather(picks) == Gather(picks[..n])
  {
    if n < |picks| {
      assert picks[..|picks| - 1][..n] == picks[..n];
      GatherSaturated(picks[..|picks| - 1], n);
    } else {
      assert picks[..n] == picks;
    }
  }

  /** A sequence holding three different values has at least three entries. */
  lemma ThreeDistinctIn(g: seq<Upgrade>, x: Upgrade, y: Upgrade, z: Upgrade)
    requires x in g && y in g && z in g
    requires x != y && y != z && x != z
    ensures |g| >= 3
  {
    var a :| 0 <= a < |g| && g[a] == x;
    var b :| 0 <= b < |g| && g[b] == y;
    var c :| 0 <= c < |g| && g[c] == z;
    assert a != b && b != c && a != c;
  }

  /** Picks that hit three different entries fill the offer. */
  lemma GatherThree(picks: seq<Upgrade>, i: nat, j: nat, k: nat)
    requires i < |picks| && j < |picks| && k < |picks|
    requires picks[i] != picks[j] && picks[j] != picks[k] && picks[i] != picks[k]
    ensures |Gather(picks)| == 3
  {
    GatherShape(picks);
    var g := Gather(picks);
    if picks[i] in g && picks[j] in g && picks[k] in g {
      ThreeDistinctIn(g, picks[i], picks[j], picks[k]);
    }
  }

  /** `rollThreeUpgrades` indexes the whole catalog with indexes drawn below
      the number of UNHELD entries, so its offer always comes from the first
      that-many catalog entries, held or not. */
  lemma RollDrawsFromCatalogPrefix(catalog: seq<Upgrade>, held: Option<seq<Upgrade>>, draws: seq<nat>)
    requires forall k :: 0 <= k < |draws| ==> draws[k] < |Unheld(catalog, held)|
    ensures var n := |Unheld(catalog, held)|;
      n <= |catalog| && forall u <- Gather(Picks(catalog, draws)) :: u in catalog[..n]
  {
    var picks := Picks(catalog, draws);
    GatherShape(picks);
    forall u <- Gather(picks) ensures u in catalog[..|Unheld(catalog, held)|] {
      var k :| 0 <= k < |picks| && picks[k] == u;
      assert catalog[..|Unheld(catalog, held)|][draws[k]] == u;
    }
  }

  /** A four-entry catalog whose first entry is POWER_BOOST, which the
      player holds. */
  function SampleCatalog(): seq<Upgrade>
  {
    [POWER_BOOST, HEALING_ROOTS, POWER_BOOST.(id := "c"), POWER_BOOST.(id := "d")]
  }

  lemma SampleUnheld()
    ensures Unheld(SampleCatalog(), Some([POWER_BOOST])) == SampleCatalog()[1..]
  {
    var catalog := SampleCatalog();
    var held := Some([POWER_BOOST]);
    assert HasId([POWER_BOOST], POWER_BOOST.id);
    assert catalog[1..][1..] == catalog[2..];
    assert catalog[2..][1..] == catalog[3..];
    assert catalog[3..][1..] == [];
    assert Unheld(catalog[3..], held) == catalog[3..];
    assert Unheld(catalog[2..], held) == catalog[2..];
    assert Unheld(catalog[1..], held) == catalog[1..];
  }

  lemma SampleGather()
    ensures Gather(Picks(SampleCatalog(), [0, 1, 2]))[0] == POWER_BOOST
  {
    var picks := Picks(SampleCatalog(), [0, 1, 2]);
    assert picks[..1][..0] == [];
    assert Gather(picks[..1]) == [POWER_BOOST];
    assert picks[..2][..1] == picks[..1];
    assert Gather(picks[..2])[0] == POWER_BOOST;
    assert picks[..3] == picks;
    assert picks[..3][..2] == picks[..2];
  }

  /** With three entries unheld, the draws 0, 1, 2 (all below three) offer
      POWER_BOOST, which the player already holds. */
  lemma RollCanOfferHeldUpgrade()
    ensures var held := Some([POWER_BOOST]);
      && |Unheld(SampleCatalog(), held)| == 3
      && Holds(held, Gather(Picks(SampleCatalog(), [0, 1, 2]))[0])
  {
    SampleUnheld();
    SampleGather();
    assert HasId([POWER_BOOST], POWER_BOOST.id);
  }

  /** The upgrade operations on one player. */
  class UpgradeHandler {
    const player: Entity

    constructor (player: Entity)
      ensures this.player == player
    {
      this.player := player;
    }

    /** `hasUpgrade`: the player's list exists and has an entry with the id. */
    function HasUpgrade(upgrade: Upgrade): (r: bool)
      reads player
      ensures r <==> (player.upgrades.Some? &&
                      exists k :: 0 <= k < |player.upgrades.value| && player.upgrades.value[k].id == upgrade.id)
    {
      Holds(player.upgrades, upgrade)
    }

    /** `rollThreeUpgrades` with its catalog as a parameter: fewer than three
        unheld entries are offered as they are; otherwise the loop draws
        indexes below the number of unheld entries, `draws` standing for the
        random draws, and looks them up in the whole catalog. */
    method RollFrom(catalog: seq<Upgrade>, draws: seq<nat>) returns (offer: seq<Upgrade>)
      requires |Unheld(catalog, player.upgrades)| >= 3 ==>
        forall k :: 0 <= k < |draws| ==> draws[k] < |Unheld(catalog, player.upgrades)|
      ensures var unheld := Unheld(catalog, player.upgrades);
        if |unheld| < 3 then offer == unheld
        else offer == Gather(Picks(catalog, draws))
      ensures |offer| <= 3
      ensures forall u <- offer :: u in catalog
    {
      var returnArray: seq<Upgrade> := [];
      var filtered := Unheld(catalog, player.upgrades);
      if |filtered| < 3 {
        return filtered;
      }
      ghost var picks := Picks(catalog, draws);
      var i := 0;
      while |returnArray| < 3 && i < |draws|
        invariant 0 <= i <= |draws|
        invariant returnArray == Gather(picks[..i])
      {
        var randomIndex := draws[i];
        assert picks[..i + 1][..i] == picks[..i];
        if catalog[randomIndex] !in returnArray {
          returnArray := returnArray + [catalog[randomIndex]];
        }
        i := i + 1;
      }
      if i == |draws| {
        assert picks[..i] == picks;
      } else {
        GatherSaturated(picks, i);
      }
      GatherShape(picks);
      offer := returnArray;
    }

    /** `rollThreeUpgrades` over the real catalog: it has two entries, so
        the offer is always exactly the unheld ones, none of them held. */
    method RollThreeUpgrades() returns (offer: seq<Upgrade>)
      ensures offer == Unheld(UPGRADE_CATALOG, player.upgrades)
      ensures forall u <- offer :: u in UPGRADE_CATALOG && !HasUpgrade(u)
    {
      offer := RollFrom(UPGRADE_CATALOG, []);
    }

    /** `addUpgrade`: an absent list becomes a list; the upgrade is appended. */
    method AddUpgrade(upgrade: Upgrade)
      modifies player`upgrades
      ensures player.upgrades
           == Some((if old(player.upgrades).Some? then old(player.upgrades).value else []) + [upgrade])
      ensures HasUpgrade(upgrade)
    {
      if player.upgrades.None? {
        player.upgrades := Some([]);
      }
      player.upgrades := Some(player.upgrades.value + [upgrade]);
      assert player.upgrades.value[|player.upgrades.value| - 1] == upgrade;
    }

    /** `removeUpgrade`: every entry with the upgrade's id is dropped, the
        rest keep their order; an absent list stays absent. */
    method RemoveUpgrade(upgrade: Upgrade)
      modifies player`upgrades
      ensures old(player.upgrades).None? ==> player.upgrades.None?
      ensures old(player.upgrades).Some? ==>
        player.upgrades == Some(WithoutId(old(player.upgrades).value, upgrade.id))
      ensures !HasUpgrade(upgrade)
    {
      if player.upgrades.Some? {
        player.upgrades := Some(WithoutId(player.upgrades.value, upgrade.id));
      }
    }
  }

  /** Adding an upgrade and removing it again leaves exactly the entries
      with other ids, in their old order. */
  lemma AddThenRemove(held: seq<Upgrade>, u: Upgrade)
    ensures WithoutId(held + [u], u.id) == WithoutId(held, u.id)
  {
    WithoutIdAppend(held, [u], u.id);
    assert WithoutId([u], u.id) == [];
  }
}
