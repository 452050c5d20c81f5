// The prize catalog of the drawing engine (`loadPrizes` without the file reading):
// drive counts per race, the expansion of sponsor lines into prizes, the Toyo
// payout table (`setToyoAmounts`) and the shuffle (`randomize`), shared by
// src/main.ts and main.js.
module Catalog {
  import opened Common
  import opened Models
  import opened Eligibility

  function Max0(n: int): nat
  {
    if n < 0 then 0 else n
  }

  // ---------------------------------------------------------------------------
  // drive counts per race

  /** The race of each drive, in drive order. */
  function RaceIds(drives: seq<Drive>): (ids: seq<int>)
    ensures |ids| == |drives|
    ensures forall k :: 0 <= k < |drives| ==> ids[k] == drives[k].raceId
  {
    seq(|drives|, k requires 0 <= k < |drives| => drives[k].raceId)
  }

  /** `raceCounts`: the `reduce` that adds one to the entry of each drive's race. The keys are
      exactly the races that have a drive, and each entry is that race's number of drives.
      src/main.ts builds a `Map` but reads it with brackets; here, as in main.js, the entry that
      was written is the entry that is read. */
  function RaceCounts(drives: seq<Drive>): (counts: map<int, nat>)
    ensures forall r :: r in counts <==> r in RaceIds(drives)
    ensures forall r :: r in counts ==> counts[r] == multiset(RaceIds(drives))[r]
  {
    if drives == [] then map[]
    else
      var prefix := drives[..|drives| - 1];
      var id := drives[|drives| - 1].raceId;
      var counts := RaceCounts(prefix);
      assert RaceIds(drives) == RaceIds(prefix) + [id];
      counts[id := (if id in counts then counts[id] else 0) + 1]
  }

  // ---------------------------------------------------------------------------
  // expansion of the sponsor lines

  /** A per-race prize of a sponsor line for race `race`. */
  function RacePrize(d: PrizeDescriptor, race: int): Prize
  {
    Prize(d.sponsorName, d.prizeType, "race", Some(d.perRace), race)
  }

  /** The weekend prize of a sponsor line. It has no race (0), so it applies no race filter.
      src/main.ts gives it the per-race amount, main.js the per-weekend amount. */
  function WeekendPrize(v: Variant, d: PrizeDescriptor): (p: Prize)
    ensures p.raceId == 0 && forall drive :: RaceMatches(p, drive)
  {
    Prize(d.sponsorName, d.prizeType, "weekend", Some(if v == MainTs then d.perRace else d.perWeekend), 0)
  }

  /** Races 1 to `races`, each with `perRaceCount` copies of its prize. */
  function RacePrizes(d: PrizeDescriptor, races: int): seq<Prize>
    decreases Max0(races)
  {
    if races <= 0 then [] else RacePrizes(d, races - 1) + Copies(RacePrize(d, races), d.perRaceCount)
  }

  /** What one sponsor line adds: its race prizes, then `perWeekendCount` weekend prizes. */
  function DescriptorPrizes(v: Variant, d: PrizeDescriptor, raceCount: nat): seq<Prize>
  {
    RacePrizes(d, raceCount) + Copies(WeekendPrize(v, d), d.perWeekendCount)
  }

  /** The whole catalog: the sponsor lines' prizes in line order. */
  function Expansion(v: Variant, ds: seq<PrizeDescriptor>, raceCount: nat): seq<Prize>
  {
    if ds == [] then [] else Expansion(v, ds[..|ds| - 1], raceCount) + DescriptorPrizes(v, ds[|ds| - 1], raceCount)
  }

  /** The innermost push loop: `count` pushes of `x`, none when `count` is not positive. */
  method PushCopies(prizes: seq<Prize>, x: Prize, count: int) returns (r: seq<Prize>)
    ensures r == prizes + Copies(x, count)
  {
    r := prizes;
    var i := 0;
    while i < count
      invariant 0 <= i <= Max0(count)
      invariant r == prizes + Copies(x, i)
    {
      assert Copies(x, i + 1) == Copies(x, i) + [x];
      r := r + [x];
      i := i + 1;
    }
  }

  /** The race loop of `loadPrizes` for one sponsor line: races 1 to `raceCount`, each with
      `perRaceCount` prizes. */
  method PushRacePrizes(prizes: seq<Prize>, d: PrizeDescriptor, raceCount: nat) returns (r: seq<Prize>)
    ensures r == prizes + RacePrizes(d, raceCount)
  {
    r := prizes;
    var race := 1;
    while race <= raceCount
      invariant 1 <= race <= raceCount + 1
      invariant r == prizes + RacePrizes(d, race - 1)
    {
      r := PushCopies(r, RacePrize(d, race), d.perRaceCount);
      assert RacePrizes(d, race) == RacePrizes(d, race - 1) + Copies(RacePrize(d, race), d.perRaceCount);
      race := race + 1;
    }
  }

  /** The nested push loops of `loadPrizes`: for each sponsor line, races 1 to `raceCount` with
      `perRaceCount` prizes each, then `perWeekendCount` weekend prizes. */
  method ExpandPrizes(v: Variant, ds: seq<PrizeDescriptor>, raceCount: nat) returns (prizes: seq<Prize>)
    ensures prizes == Expansion(v, ds, raceCount)
  {
    prizes := [];
    for n := 0 to |ds|
      invariant prizes == Expansion(v, ds[..n], raceCount)
    {
      var d := ds[n];
      var base := prizes;
      prizes := PushRacePrizes(prizes, d, raceCount);
      prizes := PushCopies(prizes, WeekendPrize(v, d), d.perWeekendCount);
      assert prizes == base + DescriptorPrizes(v, d, raceCount);
      ExpansionStep(v, ds, n, raceCount);
    }
    assert ds[..|ds|] == ds;
  }

  lemma ExpansionStep(v: Variant, ds: seq<PrizeDescriptor>, n: nat, raceCount: nat)
    requires n < |ds|
    ensures Expansion(v, ds[..n + 1], raceCount) == Expansion(v, ds[..n], raceCount) + DescriptorPrizes(v, ds[n], raceCount)
  {
    assert ds[..n + 1][..n] == ds[..n];
  }

  lemma {:induction false} RacePrizesLength(d: PrizeDescriptor, n: nat)
    ensures |RacePrizes(d, n)| == n * Max0(d.perRaceCount)
  {
    if n > 0 {
      RacePrizesLength(d, n - 1);
      assert n * Max0(d.perRaceCount) == (n - 1) * Max0(d.perRaceCount) + Max0(d.perRaceCount);
    }
  }

  /** Races 1 to `n` each get `perRaceCount` prizes, and no other race gets any. */
  lemma {:induction false} RacePrizesCount(d: PrizeDescriptor, n: nat, r: int)
    ensures multiset(RacePrizes(d, n))[RacePrize(d, r)] == if 1 <= r <= n then Max0(d.perRaceCount) else 0
  {
    if n > 0 {
      RacePrizesCount(d, n - 1, r);
      CopiesMultiset(RacePrize(d, n), d.perRaceCount, RacePrize(d, r));
    }
  }

  /** Every race prize is the prize of one of the races 1 to `n`. */
  lemma {:induction false} RacePrizesRaces(d: PrizeDescriptor, n: nat)
    ensures forall k :: 0 <= k < |RacePrizes(d, n)| ==> exists r :: 1 <= r <= n && RacePrizes(d, n)[k] == RacePrize(d, r)
  {
    if n > 0 {
      RacePrizesRaces(d, n - 1);
      var a := RacePrizes(d, n - 1);
      var b := Copies(RacePrize(d, n), d.perRaceCount);
      assert RacePrizes(d, n) == a + b;
      forall k | 0 <= k < |RacePrizes(d, n)| ensures exists r :: 1 <= r <= n && RacePrizes(d, n)[k] == RacePrize(d, r) {
        if k < |a| {
          var r :| 1 <= r <= n - 1 && a[k] == RacePrize(d, r);
          assert RacePrizes(d, n)[k] == RacePrize(d, r);
        } else {
          assert RacePrizes(d, n)[k] == RacePrize(d, n);
        }
      }
    } else {
      assert RacePrizes(d, n) == [];
    }
  }

  /** One sponsor line gives `raceCount` × `perRaceCount` race prizes plus `perWeekendCount`
      weekend prizes. */
  lemma DescriptorSize(v: Variant, d: PrizeDescriptor, raceCount: nat)
    ensures |DescriptorPrizes(v, d, raceCount)| == raceCount * Max0(d.perRaceCount) + Max0(d.perWeekendCount)
  {
    RacePrizesLength(d, raceCount);
  }

  /** One sponsor line gives `perRaceCount` prizes for each race 1 to `raceCount` and
      `perWeekendCount` weekend prizes. */
  lemma DescriptorCounts(v: Variant, d: PrizeDescriptor, raceCount: nat)
    ensures forall r :: 1 <= r <= raceCount ==> multiset(DescriptorPrizes(v, d, raceCount))[RacePrize(d, r)] == Max0(d.perRaceCount)
    ensures multiset(DescriptorPrizes(v, d, raceCount))[WeekendPrize(v, d)] == Max0(d.perWeekendCount)
  {
    RacePrizesRaces(d, raceCount);
    var a := RacePrizes(d, raceCount);
    var w := WeekendPrize(v, d);
    var b := Copies(w, d.perWeekendCount);
    assert DescriptorPrizes(v, d, raceCount) == a + b;
    forall r | 1 <= r <= raceCount ensures multiset(a + b)[RacePrize(d, r)] == Max0(d.perRaceCount) {
      RacePrizesCount(d, raceCount, r);
      CopiesMultiset(w, d.perWeekendCount, RacePrize(d, r));
    }
    CopiesMultiset(w, d.perWeekendCount, w);
    assert w !in a;
  }

  /** Every prize of a sponsor line carries the line's sponsor and type, and is either a race
      prize for a race 1 to `raceCount` at the per-race amount or the line's weekend prize. */
  lemma DescriptorShapes(v: Variant, d: PrizeDescriptor, raceCount: nat)
    ensures forall k :: 0 <= k < |DescriptorPrizes(v, d, raceCount)| ==>
      var p := DescriptorPrizes(v, d, raceCount)[k];
      && p.sponsorName == d.sponsorName && p.prizeType == d.prizeType
      && ((p.frequency == "race" && 1 <= p.raceId <= raceCount && p.amount == Some(d.perRace)) || p == WeekendPrize(v, d))
  {
    RacePrizesRaces(d, raceCount);
    var a: seq<Prize> := RacePrizes(d, raceCount);
    var w: Prize := WeekendPrize(v, d);
    var b: seq<Prize> := Copies(w, d.perWeekendCount);
    assert DescriptorPrizes(v, d, raceCount) == a + b;
    forall k | 0 <= k < |a + b|
      ensures var p := (a + b)[k];
        && p.sponsorName == d.sponsorName && p.prizeType == d.prizeType
        && ((p.frequency == "race" && 1 <= p.raceId <= raceCount && p.amount == Some(d.perRace)) || p == w)
    {
      if k < |a| {
        var r :| 1 <= r <= raceCount && a[k] == RacePrize(d, r);
        assert (a + b)[k] == a[k];
      }
    }
  }

  /** Sum of the non-negative per-race counts of the lines. */
  function PerRaceTotal(ds: seq<PrizeDescriptor>): nat
  {
    if ds == [] then 0 else PerRaceTotal(ds[..|ds| - 1]) + Max0(ds[|ds| - 1].perRaceCount)
  }

  /** Sum of the non-negative weekend counts of the lines. */
  function PerWeekendTotal(ds: seq<PrizeDescriptor>): nat
  {
    if ds == [] then 0 else PerWeekendTotal(ds[..|ds| - 1]) + Max0(ds[|ds| - 1].perWeekendCount)
  }

  /** The catalog holds `raceCount` times all the per-race counts plus all the weekend counts. */
  lemma {:induction false} ExpansionSize(v: Variant, ds: seq<PrizeDescriptor>, raceCount: nat)
    ensures |Expansion(v, ds, raceCount)| == raceCount * PerRaceTotal(ds) + PerWeekendTotal(ds)
  {
    if ds != [] {
      var prefix := ds[..|ds| - 1];
      var d := ds[|ds| - 1];
      ExpansionSize(v, prefix, raceCount);
      DescriptorSize(v, d, raceCount);
      Distribute(raceCount, PerRaceTotal(prefix), Max0(d.perRaceCount));
    }
  }

  lemma Distribute(n: nat, a: nat, b: nat)
    ensures n * (a + b) == n * a + n * b
  {
  }

  // ---------------------------------------------------------------------------
  // setToyoAmounts

  /** The payout table indexed by drive count, 61 entries (counts 0 to 60). */
  const CountTable: seq<int> := [0, 0, 0, 85, 85, 85, 175, 175, 175, 175, 175, 265, 265, 265, 265, 265,
    355, 355, 355, 355, 355, 440, 440, 440, 440, 550, 550, 550, 550, 550, 550, 600, 600, 600, 600, 600,
    600, 600, 600, 600, 600, 600, 600, 600, 600, 600, 600, 600, 600, 600, 600, 600, 600, 600, 600, 600,
    600, 600, 600, 600, 600]

  /** `countTable[count]`: `undefined` past the end of the table. */
  function ToyoTier(count: int): (amount: Option<int>)
    ensures amount.Some? <==> 0 <= count <= 60
  {
    if 0 <= count < |CountTable| then Some(CountTable[count]) else None
  }

  /** The payout schedule by drive count: nothing below 3 drives, then $85 (3-5), $175 (6-10),
      $265 (11-15), $355 (16-20), $440 (21-24), $550 (25-30) and $600 (31 and more). */
  function Schedule(count: nat): int
  {
    if count < 3 then 0
    else if count <= 5 then 85
    else if count <= 10 then 175
    else if count <= 15 then 265
    else if count <= 20 then 355
    else if count <= 24 then 440
    else if count <= 30 then 550
    else 600
  }

  /** The table agrees with the schedule for every count it covers; a race with more than 60
      drives finds no entry. */
  lemma TableFollowsSchedule(count: nat)
    ensures count <= 60 ==> ToyoTier(count) == Some(Schedule(count))
    ensures count > 60 ==> ToyoTier(count).None?
  {
    if count < 31 {
      LowCounts(count);
    } else if count <= 60 {
      HighCounts(count);
    }
  }

  lemma LowCounts(count: nat)
    requires count < 31
    ensures CountTable[count] == Schedule(count)
  {
    var t := CountTable;
    assert t[..31] == [0, 0, 0, 85, 85, 85, 175, 175, 175, 175, 175, 265, 265, 265, 265, 265,
      355, 355, 355, 355, 355, 440, 440, 440, 440, 550, 550, 550, 550, 550, 550];
    assert t[count] == t[..31][count];
  }

  lemma HighCounts(count: nat)
    requires 31 <= count <= 60
    ensures CountTable[count] == Schedule(count)
  {
    var t := CountTable;
    assert t[31..] == Copies(600, 30);
    assert t[count] == t[31..][count - 31];
  }

  /** The amount `setToyoAmounts` gives a Toyo prize: the table entry for its race's drive count.
      A race without drives has no count and gets `undefined`; so does every main.js weekend
      prize, which has no race field to look up. */
  function TierFor(v: Variant, counts: map<int, nat>, prize: Prize): (amount: Option<int>)
    ensures amount.Some? <==>
      !(v == MainJs && prize.raceId == 0) && prize.raceId in counts && counts[prize.raceId] <= 60
    ensures amount.Some? ==> amount.value == Schedule(counts[prize.raceId])
  {
    if v == MainJs && prize.raceId == 0 then None
    else if prize.raceId in counts then
      TableFollowsSchedule(counts[prize.raceId]);
      ToyoTier(counts[prize.raceId])
    else None
  }

  /** One prize after `setToyoAmounts`: only a Toyo prize changes, and only in its amount. */
  function WithToyoAmount(v: Variant, counts: map<int, nat>, p: Prize): (q: Prize)
    ensures q.(amount := p.amount) == p
    ensures p.sponsorName != ToyoSponsor ==> q == p
    ensures p.sponsorName == ToyoSponsor ==> q.amount == TierFor(v, counts, p)
  {
    if p.sponsorName == ToyoSponsor then p.(amount := TierFor(v, counts, p)) else p
  }

  function WithToyoAmounts(v: Variant, counts: map<int, nat>, prizes: seq<Prize>): seq<Prize>
  {
    seq(|prizes|, k requires 0 <= k < |prizes| => WithToyoAmount(v, counts, prizes[k]))
  }

  /** `setToyoAmounts`: the `forEach` that overwrites the amount of each Toyo prize. The prize
      objects are created by `loadPrizes` and referenced only from this array, so setting a
      field is replacing the array cell. */
  method SetToyoAmounts(v: Variant, prizes: array<Prize>, counts: map<int, nat>)
    modifies prizes
    ensures prizes[..] == WithToyoAmounts(v, counts, old(prizes[..]))
  {
    for k := 0 to prizes.Length
      invariant forall i :: 0 <= i < k ==> prizes[i] == WithToyoAmount(v, counts, old(prizes[i]))
      invariant forall i :: k <= i < prizes.Length ==> prizes[i] == old(prizes[i])
    {
      if prizes[k].sponsorName == ToyoSponsor {
        prizes[k] := prizes[k].(amount := TierFor(v, counts, prizes[k]));
      }
    }
  }

  /** A Toyo race prize of a race with 60 drives or fewer is paid by the schedule; any other
      prize keeps its amount. */
  lemma ToyoPayout(v: Variant, counts: map<int, nat>, p: Prize)
    ensures p.sponsorName != ToyoSponsor ==> WithToyoAmount(v, counts, p) == p
    ensures p.sponsorName == ToyoSponsor && p.raceId != 0 && p.raceId in counts && counts[p.raceId] <= 60 ==>
      WithToyoAmount(v, counts, p).amount == Some(Schedule(counts[p.raceId]))
  {
    if p.raceId in counts {
      TableFollowsSchedule(counts[p.raceId]);
    }
  }

  // ---------------------------------------------------------------------------
  // randomize and loadPrizes

  /** `randomize`: the Fisher–Yates shuffle. `Math.random` is the choice of any `j` with
      0 <= j <= i; whatever is chosen, the array ends as a permutation of its contents. */
  method Randomize<T>(a: array<T>)
    modifies a
    ensures multiset(a[..]) == multiset(old(a[..]))
  {
    var i := a.Length - 1;
    while i > 0
      invariant i < a.Length
      invariant multiset(a[..]) == multiset(old(a[..]))
    {
      var j :| 0 <= j <= i;
      a[i], a[j] := a[j], a[i];
      i := i - 1;
    }
  }

  /** The sponsor lines after the header line, each parsed. */
  function Descriptors(lines: seq<string>, toNumber: Option<string> -> int): seq<PrizeDescriptor>
  {
    if |lines| <= 1 then []
    else seq(|lines| - 1, k requires 0 <= k < |lines| - 1 => ParsePrizeDescriptorFromLine(lines[k + 1], toNumber))
  }

  /** The catalog before shuffling: the expansion over as many races as have drives, with the
      Toyo amounts set. */
  function PrizeCatalog(v: Variant, lines: seq<string>, toNumber: Option<string> -> int, drives: seq<Drive>): seq<Prize>
  {
    var counts := RaceCounts(drives);
    WithToyoAmounts(v, counts, Expansion(v, Descriptors(lines, toNumber), |counts|))
  }

  /** `loadPrizes` from the already split sponsor file: a fresh array holding the catalog in
      some shuffled order. */
  method LoadPrizes(v: Variant, lines: seq<string>, toNumber: Option<string> -> int, drives: seq<Drive>)
    returns (prizes: array<Prize>)
    ensures fresh(prizes)
    ensures multiset(prizes[..]) == multiset(PrizeCatalog(v, lines, toNumber, drives))
  {
    var counts := RaceCounts(drives);
    var expanded := ExpandPrizes(v, Descriptors(lines, toNumber), |counts|);
    prizes := new Prize[|expanded|](k requires 0 <= k < |expanded| => expanded[k]);
    assert prizes[..] == expanded;
    SetToyoAmounts(v, prizes, counts);
    Randomize(prizes);
  }
}
