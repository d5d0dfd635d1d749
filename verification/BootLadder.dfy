/** The host-global boot ladder: one rung for each bot, every manager first. */
module BootLadder {
  import opened TextOrder

  const STAGGER := 3

  /** A fleet as its manifest declares it: its bots in order, and its one manager. */
  datatype Fleet = Fleet(bots: seq<string>, manager: string)
  datatype Tier = Manager | Worker

  ghost predicate Listed(fleet: Fleet) {
    forall i, j | 0 <= i < j < |fleet.bots| :: fleet.bots[i] != fleet.bots[j]
  }

  /** What loading a manifest has already refused otherwise: the manager is a bot of the fleet. */
  ghost predicate Loaded(fleet: Fleet) {
    Listed(fleet) && fleet.manager in fleet.bots
  }

  function TierOf(fleet: Fleet, bot: string): Tier {
    if bot == fleet.manager then Manager else Worker
  }

  /** How many of these bots stand in a tier. */
  function Count(fleet: Fleet, bots: seq<string>, tier: Tier): nat {
    if bots == [] then 0
    else Count(fleet, bots[..|bots| - 1], tier) + if TierOf(fleet, bots[|bots| - 1]) == tier then 1 else 0
  }

  function Size(fleet: Fleet, tier: Tier): nat {
    Count(fleet, fleet.bots, tier)
  }

  /** How many bots of a tier the first `f` fleets have. */
  function Ahead(fleets: seq<Fleet>, f: nat, tier: Tier): nat
    requires f <= |fleets|
  {
    if f == 0 then 0 else Ahead(fleets, f - 1, tier) + Size(fleets[f - 1], tier)
  }

  function Total(fleets: seq<Fleet>, tier: Tier): nat {
    Ahead(fleets, |fleets|, tier)
  }

  /** The rung of bot `j` of fleet `f`: managers of earlier fleets first, then
      its own fleet's; workers start past every manager on the host. */
  function Rung(fleets: seq<Fleet>, f: nat, j: nat): nat
    requires f < |fleets| && j < |fleets[f].bots|
  {
    var tier := TierOf(fleets[f], fleets[f].bots[j]);
    (if tier.Worker? then Total(fleets, Manager) else 0) + Ahead(fleets, f, tier) + Count(fleets[f], fleets[f].bots[..j], tier)
  }

  lemma {:induction false} CountGrows(fleet: Fleet, bots: seq<string>, j: nat, tier: Tier)
    requires j < |bots|
    ensures Count(fleet, bots[..j], tier) + (if TierOf(fleet, bots[j]) == tier then 1 else 0) <= Count(fleet, bots, tier)
    decreases |bots|
  {
    if j < |bots| - 1 {
      CountGrows(fleet, bots[..|bots| - 1], j, tier);
      assert bots[..|bots| - 1][..j] == bots[..j];
    }
  }

  lemma {:induction false} AheadGrows(fleets: seq<Fleet>, f: nat, g: nat, tier: Tier)
    requires f < g <= |fleets|
    ensures Ahead(fleets, f, tier) + Size(fleets[f], tier) <= Ahead(fleets, g, tier)
    decreases g
  {
    if f < g - 1 { AheadGrows(fleets, f, g - 1, tier); }
  }

  /** Within one tier, a later bot has a later place. */
  lemma PlacesRise(fleets: seq<Fleet>, f: nat, j: nat, g: nat, k: nat, tier: Tier)
    requires f < |fleets| && g < |fleets| && j < |fleets[f].bots| && k < |fleets[g].bots|
    requires TierOf(fleets[f], fleets[f].bots[j]) == tier
    requires f < g || (f == g && j < k)
    ensures Ahead(fleets, f, tier) + Count(fleets[f], fleets[f].bots[..j], tier)
          < Ahead(fleets, g, tier) + Count(fleets[g], fleets[g].bots[..k], tier)
  {
    if f < g {
      CountGrows(fleets[f], fleets[f].bots, j, tier);
      AheadGrows(fleets, f, g, tier);
    } else {
      CountGrows(fleets[f], fleets[f].bots[..k], j, tier);
      assert fleets[f].bots[..k][..j] == fleets[f].bots[..j];
    }
  }

  lemma PlaceWithinTier(fleets: seq<Fleet>, f: nat, j: nat)
    requires f < |fleets| && j < |fleets[f].bots|
    ensures var tier := TierOf(fleets[f], fleets[f].bots[j]);
            Ahead(fleets, f, tier) + Count(fleets[f], fleets[f].bots[..j], tier) < Total(fleets, tier)
  {
    var tier := TierOf(fleets[f], fleets[f].bots[j]);
    CountGrows(fleets[f], fleets[f].bots, j, tier);
    AheadGrows(fleets, f, |fleets|, tier);
  }

  /** Every manager is before every worker, and all rungs are below the host's bot count. */
  lemma RungsInRange(fleets: seq<Fleet>, f: nat, j: nat)
    requires f < |fleets| && j < |fleets[f].bots|
    ensures if TierOf(fleets[f], fleets[f].bots[j]).Manager? then Rung(fleets, f, j) < Total(fleets, Manager)
            else Total(fleets, Manager) <= Rung(fleets, f, j) < Total(fleets, Manager) + Total(fleets, Worker)
  {
    PlaceWithinTier(fleets, f, j);
  }

  /** No rung is shared. */
  lemma RungsDistinct(fleets: seq<Fleet>, f: nat, j: nat, g: nat, k: nat)
    requires f < |fleets| && g < |fleets| && j < |fleets[f].bots| && k < |fleets[g].bots|
    requires f != g || j != k
    ensures Rung(fleets, f, j) != Rung(fleets, g, k)
  {
    RungsInRange(fleets, f, j);
    RungsInRange(fleets, g, k);
    var tier := TierOf(fleets[f], fleets[f].bots[j]);
    if tier == TierOf(fleets[g], fleets[g].bots[k]) {
      if f < g || (f == g && j < k) { PlacesRise(fleets, f, j, g, k, tier); }
      else { PlacesRise(fleets, g, k, f, j, tier); }
    }
  }

  lemma {:induction false} FindInFleet(fleet: Fleet, bots: seq<string>, tier: Tier, place: nat) returns (j: nat)
    requires place < Count(fleet, bots, tier)
    ensures j < |bots| && TierOf(fleet, bots[j]) == tier && Count(fleet, bots[..j], tier) == place
    decreases |bots|
  {
    j := |bots| - 1;
    var rest := bots[..j];
    if place < Count(fleet, rest, tier) {
      j := FindInFleet(fleet, rest, tier, place);
      assert rest[..j] == bots[..j];
    }
  }

  lemma {:induction false} FindPlace(fleets: seq<Fleet>, n: nat, tier: Tier, place: nat) returns (f: nat, j: nat)
    requires n <= |fleets| && place < Ahead(fleets, n, tier)
    ensures f < n && j < |fleets[f].bots| && TierOf(fleets[f], fleets[f].bots[j]) == tier
    ensures Ahead(fleets, f, tier) + Count(fleets[f], fleets[f].bots[..j], tier) == place
    decreases n
  {
    if place < Ahead(fleets, n - 1, tier) {
      f, j := FindPlace(fleets, n - 1, tier, place);
    } else {
      f := n - 1;
      j := FindInFleet(fleets[f], fleets[f].bots, tier, place - Ahead(fleets, f, tier));
    }
  }

  /** No rung is empty. */
  lemma RungsFilled(fleets: seq<Fleet>, rung: nat) returns (f: nat, j: nat)
    requires rung < Total(fleets, Manager) + Total(fleets, Worker)
    ensures f < |fleets| && j < |fleets[f].bots| && Rung(fleets, f, j) == rung
  {
    if rung < Total(fleets, Manager) {
      f, j := FindPlace(fleets, |fleets|, Manager, rung);
    } else {
      f, j := FindPlace(fleets, |fleets|, Worker, rung - Total(fleets, Manager));
    }
  }

  // ---- the composer's walk ----

  /** `tier.index(bot)`, and 0 for a bot the fleet does not list. */
  method IndexInTier(fleet: Fleet, bot: string) returns (index: nat)
    ensures bot !in fleet.bots ==> index == 0
    ensures Listed(fleet) ==> forall j | 0 <= j < |fleet.bots| && fleet.bots[j] == bot ::
                index == Count(fleet, fleet.bots[..j], TierOf(fleet, bot))
  {
    index := 0;
    for i := 0 to |fleet.bots|
      invariant bot !in fleet.bots[..i]
      invariant index == Count(fleet, fleet.bots[..i], TierOf(fleet, bot))
    {
      assert fleet.bots[..i + 1][..i] == fleet.bots[..i];
      if fleet.bots[i] == bot {
        return;
      }
      if TierOf(fleet, fleet.bots[i]) == TierOf(fleet, bot) {
        index := index + 1;
      }
    }
    index := 0;
  }

  method CountTiers(fleet: Fleet) returns (managers: nat, workers: nat)
    ensures managers == Size(fleet, Manager) && workers == Size(fleet, Worker)
  {
    managers, workers := 0, 0;
    for i := 0 to |fleet.bots|
      invariant managers == Count(fleet, fleet.bots[..i], Manager) && workers == Count(fleet, fleet.bots[..i], Worker)
    {
      assert fleet.bots[..i + 1][..i] == fleet.bots[..i];
      if fleet.bots[i] == fleet.manager { managers := managers + 1; } else { workers := workers + 1; }
    }
    assert fleet.bots[..|fleet.bots|] == fleet.bots;
  }

  /** `_host_boot_rung_bases`: one walk over the sorted directories of the host; one without
      a readable manifest has no bots. */
  method HostBases(paths: seq<string>, fleets: seq<Fleet>, here: string, ownManagers: nat)
    returns (managerBase: nat, workerBase: nat)
    requires |paths| == |fleets| && forall i, j | 0 <= i < j < |paths| :: paths[i] != paths[j]
    ensures here !in paths ==> managerBase == 0 && workerBase == ownManagers
    ensures forall f | 0 <= f < |paths| && paths[f] == here ::
              managerBase == Ahead(fleets, f, Manager) && workerBase == Total(fleets, Manager) + Ahead(fleets, f, Worker)
  {
    var found, managersBefore, workersBefore := false, 0, 0;
    var managersTotal, workersTotal := 0, 0;
    for i := 0 to |paths|
      invariant managersTotal == Ahead(fleets, i, Manager) && workersTotal == Ahead(fleets, i, Worker)
      invariant found <==> here in paths[..i]
      invariant forall f | 0 <= f < i && paths[f] == here ::
          managersBefore == Ahead(fleets, f, Manager) && workersBefore == Ahead(fleets, f, Worker)
    {
      if paths[i] == here {
        found, managersBefore, workersBefore := true, managersTotal, workersTotal;
      }
      var managers, workers := CountTiers(fleets[i]);
      managersTotal, workersTotal := managersTotal + managers, workersTotal + workers;
      assert paths[..i + 1] == paths[..i] + [paths[i]];
    }
    assert paths[..|paths|] == paths;
    if !found { return 0, ownManagers; }
    managerBase, workerBase := managersBefore, managersTotal + workersBefore;
  }

  /** `bot_boot_delay_s`: the rung of a listed bot, in seconds. */
  method BootDelay(paths: seq<string>, fleets: seq<Fleet>, f: nat, j: nat) returns (delay: nat)
    requires |paths| == |fleets| && forall i, k | 0 <= i < k < |paths| :: paths[i] != paths[k]
    requires f < |fleets| && j < |fleets[f].bots| && Listed(fleets[f])
    ensures delay == Rung(fleets, f, j) * STAGGER
  {
    var fleet := fleets[f];
    var bot := fleet.bots[j];
    var managers, workers := CountTiers(fleet);
    var managerBase, workerBase := HostBases(paths, fleets, paths[f], managers);
    var index := IndexInTier(fleet, bot);
    delay := ((if bot == fleet.manager then managerBase else workerBase) + index) * STAGGER;
  }

  // ---- staging's accumulation ----

  /** `manager_bots`. */
  function ManagerBots(fleet: Fleet): set<string> {
    {fleet.manager}
  }

  lemma {:induction false} TiersPartition(fleet: Fleet, bots: seq<string>)
    ensures Count(fleet, bots, Manager) + Count(fleet, bots, Worker) == |bots|
    decreases |bots|
  {
    if bots != [] { TiersPartition(fleet, bots[..|bots| - 1]); }
  }

  lemma {:induction false} OneManager(fleet: Fleet, bots: seq<string>)
    requires forall i, j | 0 <= i < j < |bots| :: bots[i] != bots[j]
    ensures Count(fleet, bots, Manager) == if fleet.manager in bots then 1 else 0
    decreases |bots|
  {
    if bots != [] {
      var last, rest := bots[|bots| - 1], bots[..|bots| - 1];
      OneManager(fleet, rest);
      assert bots == rest + [last];
    }
  }

  /** A loaded fleet has exactly one manager, so the host has one for each fleet. */
  lemma {:induction false} AheadOfLoaded(fleets: seq<Fleet>, f: nat)
    requires f <= |fleets| && forall i | 0 <= i < |fleets| :: Loaded(fleets[i])
    ensures Ahead(fleets, f, Manager) == f
    decreases f
  {
    if f > 0 {
      AheadOfLoaded(fleets, f - 1);
      OneManager(fleets[f - 1], fleets[f - 1].bots);
    }
  }

  lemma SizesOfLoaded(fleet: Fleet)
    requires Loaded(fleet)
    ensures Size(fleet, Manager) == |ManagerBots(fleet)|
    ensures Size(fleet, Worker) == |fleet.bots| - |ManagerBots(fleet)|
  {
    OneManager(fleet, fleet.bots);
    TiersPartition(fleet, fleet.bots);
  }

  method CountManagers(fleets: seq<Fleet>) returns (total: nat)
    requires forall i | 0 <= i < |fleets| :: Loaded(fleets[i])
    ensures total == Total(fleets, Manager)
  {
    total := 0;
    for i := 0 to |fleets|
      invariant total == Ahead(fleets, i, Manager)
    {
      SizesOfLoaded(fleets[i]);
      total := total + |ManagerBots(fleets[i])|;
    }
  }

  /** The rungs of one fleet's bots on bases that the caller gives. */
  method FleetRungs(fleet: Fleet, managerBase: nat, workerBase: nat) returns (rungs: seq<nat>)
    requires Listed(fleet)
    ensures |rungs| == |fleet.bots|
    ensures forall j | 0 <= j < |fleet.bots| ::
              rungs[j] == (if fleet.bots[j] == fleet.manager then managerBase else workerBase)
              + Count(fleet, fleet.bots[..j], TierOf(fleet, fleet.bots[j]))
  {
    rungs := [];
    for j := 0 to |fleet.bots|
      invariant |rungs| == j
      invariant forall i | 0 <= i < j ::
          rungs[i] == (if fleet.bots[i] == fleet.manager then managerBase else workerBase)
          + Count(fleet, fleet.bots[..i], TierOf(fleet, fleet.bots[i]))
    {
      var index := IndexInTier(fleet, fleet.bots[j]);
      rungs := rungs + [(if fleet.bots[j] == fleet.manager then managerBase else workerBase) + index];
    }
  }

  /** The loop of `_render_configuration`: every bot of every fleet gets the ladder's rung. */
  method StagedRungs(fleets: seq<Fleet>) returns (rungs: seq<seq<nat>>)
    requires forall i | 0 <= i < |fleets| :: Loaded(fleets[i])
    ensures |rungs| == |fleets|
    ensures forall f | 0 <= f < |fleets| :: AreRungsOf(fleets, f, rungs[f])
  {
    var managersTotal := CountManagers(fleets);
    rungs := [];
    var managersBefore, workersBefore := 0, 0;
    for i := 0 to |fleets|
      invariant managersBefore == Ahead(fleets, i, Manager) && workersBefore == Ahead(fleets, i, Worker)
      invariant |rungs| == i && forall f | 0 <= f < i :: AreRungsOf(fleets, f, rungs[f])
    {
      var own := FleetRungs(fleets[i], managersBefore, managersTotal + workersBefore);
      OwnRungs(fleets, i, own);
      rungs := rungs + [own];
      SizesOfLoaded(fleets[i]);
      managersBefore := managersBefore + |ManagerBots(fleets[i])|;
      workersBefore := workersBefore + |fleets[i].bots| - |ManagerBots(fleets[i])|;
    }
  }

  lemma OwnRungs(fleets: seq<Fleet>, f: nat, rungs: seq<nat>)
    requires f < |fleets| && |rungs| == |fleets[f].bots|
    requires forall j | 0 <= j < |fleets[f].bots| ::
               rungs[j] == (if fleets[f].bots[j] == fleets[f].manager then Ahead(fleets, f, Manager)
                            else Total(fleets, Manager) + Ahead(fleets, f, Worker))
               + Count(fleets[f], fleets[f].bots[..j], TierOf(fleets[f], fleets[f].bots[j]))
    ensures AreRungsOf(fleets, f, rungs)
  {
  }

  ghost predicate AreRungsOf(fleets: seq<Fleet>, f: nat, rungs: seq<nat>)
    requires f < |fleets|
  {
    && |rungs| == |fleets[f].bots|
    && forall j | 0 <= j < |rungs| :: rungs[j] == Rung(fleets, f, j)
  }

  // ---- the two walks give the same ladder ----

  /** The fleets of a walk; a directory without a readable manifest has no bots. */
  function Present(fleets: seq<Fleet>): seq<Fleet> {
    if fleets == [] then []
    else
      var last := fleets[|fleets| - 1];
      Present(fleets[..|fleets| - 1]) + if last.bots == [] then [] else [last]
  }

  lemma {:induction false} PresentPrefix(fleets: seq<Fleet>, f: nat)
    requires f <= |fleets|
    ensures Present(fleets[..f]) <= Present(fleets)
    decreases |fleets|
  {
    if f < |fleets| {
      PresentPrefix(fleets[..|fleets| - 1], f);
      assert fleets[..|fleets| - 1][..f] == fleets[..f];
    } else {
      assert fleets[..f] == fleets;
    }
  }

  lemma {:induction false} AheadOfPrefix(fleets: seq<Fleet>, more: seq<Fleet>, f: nat, tier: Tier)
    requires f <= |fleets| && fleets <= more
    ensures Ahead(fleets, f, tier) == Ahead(more, f, tier)
    decreases f
  {
    if f > 0 { AheadOfPrefix(fleets, more, f - 1, tier); }
  }

  lemma {:induction false} AheadOfPresent(fleets: seq<Fleet>, f: nat, tier: Tier)
    requires f <= |fleets|
    ensures Ahead(fleets, f, tier) == Total(Present(fleets[..f]), tier)
    decreases f
  {
    if f > 0 {
      AheadOfPresent(fleets, f - 1, tier);
      assert fleets[..f][..f - 1] == fleets[..f - 1];
      var kept := Present(fleets[..f - 1]);
      AheadOfPrefix(kept, kept + [fleets[f - 1]], |kept|, tier);
      assert kept + [] == kept;
    }
  }

  /** A staged fleet's rungs are the ones the composer gives it, when both take the
      fleets in the same order. */
  lemma StagingAgrees(directories: seq<Fleet>, f: nat, j: nat)
    requires f < |directories| && j < |directories[f].bots|
    ensures var staged, at := Present(directories), |Present(directories[..f])|;
            && at < |staged| && staged[at] == directories[f]
            && Rung(staged, at, j) == Rung(directories, f, j)
  {
    var staged, at := Present(directories), |Present(directories[..f])|;
    PresentPrefix(directories, f);
    PresentPrefix(directories, f + 1);
    assert directories[..f + 1][..f] == directories[..f];
    assert directories[..|directories|] == directories;
    forall tier: Tier
      ensures Ahead(staged, at, tier) == Ahead(directories, f, tier)
      ensures Total(staged, tier) == Total(directories, tier)
    {
      AheadOfPresent(directories, f, tier);
      AheadOfPresent(directories, |directories|, tier);
      AheadOfPrefix(Present(directories[..f]), staged, at, tier);
    }
  }

  // ---- when the two orders are the same ----

  const MANIFEST := "/fleet.yaml"

  /** One name goes on from another with a character that sorts before the slash. */
  predicate LowExtension(a: string, b: string) {
    a < b && b[|a|] < '/'
  }

  lemma {:induction false} ManifestOrder(a: string, b: string)
    requires a != b && '/' !in a && '/' !in b
    ensures (TextLess(a, b) <==> TextLess(a + MANIFEST, b + MANIFEST)) <==> !LowExtension(a, b) && !LowExtension(b, a)
    decreases |a|
  {
    if a != [] && b != [] && a[0] == b[0] {
      assert a == [a[0]] + a[1..] && b == [b[0]] + b[1..];
      assert (a + MANIFEST)[1..] == a[1..] + MANIFEST && (b + MANIFEST)[1..] == b[1..] + MANIFEST;
      ManifestOrder(a[1..], b[1..]);
    }
  }

  lemma {:induction false} CommonPrefix(root: string, a: string, b: string)
    ensures TextLess(root + a, root + b) <==> TextLess(a, b)
    decreases |root|
  {
    if root == [] {
      assert root + a == a && root + b == b;
    } else {
      assert (root + a)[1..] == root[1..] + a && (root + b)[1..] == root[1..] + b;
      CommonPrefix(root[1..], a, b);
    }
  }

  /** Staging sorts manifests by their path's text, the walk sorts directories by name.
      For fleets side by side the walk's order is staging's exactly when no name goes
      on from another with a character below the slash. */
  lemma OrdersAgree(root: string, names: seq<string>)
    requires forall i | 0 <= i < |names| :: '/' !in names[i]
    requires forall i, j | 0 <= i < j < |names| :: TextLess(names[i], names[j])
    ensures (forall i, j | 0 <= i < j < |names| :: TextLess(root + (names[i] + MANIFEST), root + (names[j] + MANIFEST)))
       <==> forall i, j | 0 <= i < j < |names| :: !LowExtension(names[i], names[j])
  {
    forall i, j | 0 <= i < j < |names|
      ensures TextLess(root + (names[i] + MANIFEST), root + (names[j] + MANIFEST)) <==> !LowExtension(names[i], names[j])
    {
      TextLessAsymmetric(names[i], names[j]);
      ManifestOrder(names[i], names[j]);
      CommonPrefix(root, names[i] + MANIFEST, names[j] + MANIFEST);
      if LowExtension(names[j], names[i]) {
        assert names[i] == names[j] + names[i][|names[j]|..];
        ExtensionIsGreater(names[j], names[i][|names[j]|..]);
      }
    }
  }

  /** Two fleets whose managers change places: the composer's walk and staging give
      each of them the other's rung. */
  lemma StagedInOtherOrder(lab: Fleet, second: Fleet)
    requires Loaded(lab) && Loaded(second) && lab.bots[0] == lab.manager && second.bots[0] == second.manager
    ensures TextLess("lab", "lab-2") && TextLess("lab-2" + MANIFEST, "lab" + MANIFEST)
    ensures Rung([lab, second], 0, 0) == Rung([second, lab], 0, 0) == 0
    ensures Rung([lab, second], 1, 0) == Rung([second, lab], 1, 0) == 1
  {
    assert LowExtension("lab", "lab-2");
    ManifestOrder("lab", "lab-2");
    TextLessTotal("lab" + MANIFEST, "lab-2" + MANIFEST);
    ExtensionIsGreater("lab", "-2");
    AheadOfLoaded([lab, second], 1);
    AheadOfLoaded([second, lab], 1);
  }
}
