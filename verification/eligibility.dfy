// Who may win a prize: the sticker lookup (`hasSticker`), the Toyo cooldown
// window over the winners history (`hasWonToyo`) and the candidate filter
// (`getCandidates`), shared by src/main.ts and main.js.
module Eligibility {
  import opened Common
  import opened Models

  /** Which of the two implementations of the engine is meant. */
  datatype Variant = MainTs | MainJs

  /** The inputs that stay fixed for a whole raffle run. */
  datatype Context = Context(
    drives: seq<Drive>,
    cars: map<string, Car>,
    history: seq<seq<PrizeWinner>>,
    variant: Variant)

  /** The sponsor with the drive-count payout table and the nine-race cooldown. */
  const ToyoSponsor: string := "Toyo"

  // ---------------------------------------------------------------------------
  // hasSticker

  /** The own keys of the roster object each implementation builds for a car: the fields of the
      `Car` class (src/models.ts) and the keys of the object literal of main.js. */
  function CarKeys(v: Variant): set<string>
  {
    match v
    case MainTs =>
      {"number", "driverName", "hasAllStickers", "_425", "AAF", "Alpinestars", "Bimmerworld", "Griots",
       "ProFormance", "RoR", "Redline", "Toyo"}
    case MainJs =>
      {"number", "_425", "AAF", "Aplinestars", "Bimmerworld", "Griots", "Redline", "RoR", "Toyo"}
  }

  /** The car's field named after the sponsor, read as a truth value. The roster object of src/main.ts is a `Car`
      instance, whose own fields are the car number, the driver name, the all-stickers flag
      and one flag per sponsor. The roster object of main.js keeps only the number and eight
      sponsor flags: it has no ProFormance flag and spells Alpinestars "Aplinestars". Any
      other sponsor name finds no field. */
  function CarField(v: Variant, car: Car, sponsorName: string): (found: bool)
    ensures found ==> sponsorName in CarKeys(v)
  {
    match v
    case MainTs =>
      if sponsorName == "number" then car.number != ""
      else if sponsorName == "driverName" then car.driverName != ""
      else if sponsorName == "hasAllStickers" then car.hasAllStickers
      else if sponsorName == "_425" then car.s425
      else if sponsorName == "AAF" then car.aaf
      else if sponsorName == "Alpinestars" then car.alpinestars
      else if sponsorName == "Bimmerworld" then car.bimmerworld
      else if sponsorName == "Griots" then car.griots
      else if sponsorName == "ProFormance" then car.proFormance
      else if sponsorName == "RoR" then car.ror
      else if sponsorName == "Redline" then car.redline
      else if sponsorName == "Toyo" then car.toyo
      else false
    case MainJs =>
      if sponsorName == "number" then car.number != ""
      else if sponsorName == "_425" then car.s425
      else if sponsorName == "AAF" then car.aaf
      else if sponsorName == "Aplinestars" then car.alpinestars
      else if sponsorName == "Bimmerworld" then car.bimmerworld
      else if sponsorName == "Griots" then car.griots
      else if sponsorName == "Redline" then car.redline
      else if sponsorName == "RoR" then car.ror
      else if sponsorName == "Toyo" then car.toyo
      else false
  }

  /** `hasSticker`: the roster is read as a plain object keyed by car number (as main.js does;
      src/main.ts indexes its `Map` with brackets, which reads no entry at all). A car number
      missing from the roster has no sticker; the lookup never fails. */
  function HasSticker(v: Variant, cars: map<string, Car>, carNumber: string, sponsorName: string): (has: bool)
    ensures has ==> carNumber in cars && sponsorName in CarKeys(v)
  {
    carNumber in cars && CarField(v, cars[carNumber], sponsorName)
  }

  /** A car number that is not on the roster never carries a sticker, in either implementation. */
  lemma UnknownCarHasNoSticker(v: Variant, cars: map<string, Car>, carNumber: string, sponsorName: string)
    requires carNumber !in cars
    ensures !HasSticker(v, cars, carNumber, sponsorName)
  {
  }

  /** The sponsors both roster objects spell alike are read alike. main.js never finds an
      Alpinestars or a ProFormance sticker, whatever the roster file says. */
  lemma CarFieldVariants(car: Car, sponsorName: string)
    ensures sponsorName in {"_425", "AAF", "Bimmerworld", "Griots", "RoR", "Redline", "Toyo"} ==>
      (CarField(MainTs, car, sponsorName) <==> CarField(MainJs, car, sponsorName))
    ensures sponsorName in {"Alpinestars", "ProFormance"} ==> !CarField(MainJs, car, sponsorName)
  {
  }

  // ---------------------------------------------------------------------------
  // hasWonToyo

  /** The window length: one less than the history length, at most nine. */
  function WindowSize(n: int): int
  {
    if n - 1 < 9 then n - 1 else 9
  }

  /** The first history index the cooldown reads: the history length minus the window length. */
  function WindowStart(n: int): int
  {
    n - WindowSize(n)
  }

  /** The record names `driver` as its Toyo winner: the field is present, non-empty and equal. */
  predicate WonToyo(rec: PrizeWinner, driver: string)
  {
    Truthy(rec.toyo) && rec.toyo.value == driver
  }

  /** Some record in the window `[WindowStart(|history|), |history|)` names `driver` as the
      Toyo winner. */
  predicate InCooldown(driver: string, history: seq<seq<PrizeWinner>>)
  {
    exists i, j :: WindowStart(|history|) <= i < |history| && 0 <= j < |history[i]| && WonToyo(history[i][j], driver)
  }

  /** `hasWonToyo`: scans the window race by race and record by record, returning as soon as a
      record names the driver. */
  method HasWonToyo(driver: string, history: seq<seq<PrizeWinner>>) returns (won: bool)
    ensures won == InCooldown(driver, history)
  {
    var i := WindowStart(|history|);
    while i < |history|
      invariant WindowStart(|history|) <= i
      invariant forall i', j :: WindowStart(|history|) <= i' < i && i' < |history| && 0 <= j < |history[i']| ==> !WonToyo(history[i'][j], driver)
    {
      var j := 0;
      while j < |history[i]|
        invariant 0 <= j <= |history[i]|
        invariant forall j' :: 0 <= j' < j ==> !WonToyo(history[i][j'], driver)
      {
        var record := history[i][j];
        if Truthy(record.toyo) && record.toyo.value == driver {
          return true;
        }
        j := j + 1;
      }
      i := i + 1;
    }
    return false;
  }

  /** max(1, n - 9). */
  function LookbackStart(n: int): int
  {
    if n - 9 > 1 then n - 9 else 1
  }

  /** The window in plain terms: nothing when the history has fewer than two entries, and
      otherwise the indices max(1, n - 9) .. n - 1, so index 0 is never read. */
  lemma {:induction false} CooldownWindow(driver: string, history: seq<seq<PrizeWinner>>)
    ensures |history| < 2 ==> !InCooldown(driver, history)
    ensures InCooldown(driver, history) <==>
      |history| >= 2 && exists i, j :: LookbackStart(|history|) <= i < |history| && 0 <= j < |history[i]| && WonToyo(history[i][j], driver)
  {
    var n := |history|;
    if n >= 2 {
      assert WindowStart(n) == LookbackStart(n);
    } else {
      assert WindowStart(n) >= n;
    }
  }

  /** A Toyo win recorded at history index `won` (a race, index 0 being unused) bars the driver
      while that race is one of the last nine entries, and no longer once nine or more later
      races have been recorded, if the driver has no other Toyo win. */
  lemma {:induction false} CooldownLastsNineRaces(driver: string, history: seq<seq<PrizeWinner>>, won: nat, j: nat)
    requires 1 <= won < |history| && j < |history[won]| && WonToyo(history[won][j], driver)
    requires forall i, k :: 0 <= i < |history| && i != won && 0 <= k < |history[i]| ==> !WonToyo(history[i][k], driver)
    ensures InCooldown(driver, history) <==> |history| <= won + 9
  {
    CooldownWindow(driver, history);
    if |history| <= won + 9 {
      assert WindowStart(|history|) <= won;
    }
  }

  // ---------------------------------------------------------------------------
  // getCandidates

  /** `prize.raceId` is zero for a weekend prize, which then matches every drive. */
  predicate RaceMatches(prize: Prize, drive: Drive)
  {
    prize.raceId == 0 || prize.raceId == drive.raceId
  }

  /** Some drive already drawn this round belongs to the driver. */
  predicate WonThisRound(winners: seq<Drive>, driverName: string)
  {
    exists k :: 0 <= k < |winners| && winners[k].driverName == driverName
  }

  /** Some award of an earlier round gave the driver a prize of this sponsor. */
  predicate WonFromSponsor(awarded: seq<PrizeAward>, driverName: string, sponsorName: string)
  {
    exists k :: 0 <= k < |awarded| && awarded[k].winner.driverName == driverName && awarded[k].prize.sponsorName == sponsorName
  }

  /** The five conditions a drive must meet to be drawn for `prize`. */
  predicate Eligible(ctx: Context, prize: Prize, awarded: seq<PrizeAward>, winners: seq<Drive>, drive: Drive)
  {
    && RaceMatches(prize, drive)
    && HasSticker(ctx.variant, ctx.cars, drive.number, prize.sponsorName)
    && !WonThisRound(winners, drive.driverName)
    && !WonFromSponsor(awarded, drive.driverName, prize.sponsorName)
    && !(prize.sponsorName == ToyoSponsor && InCooldown(drive.driverName, ctx.history))
  }

  /** `getCandidates`: exactly the drives that meet all five conditions, in their original order. */
  function Candidates(ctx: Context, prize: Prize, awarded: seq<PrizeAward>, winners: seq<Drive>): (r: seq<Drive>)
    ensures IsSubsequence(r, ctx.drives)
    ensures forall k :: 0 <= k < |r| ==> r[k] in ctx.drives && Eligible(ctx, prize, awarded, winners, r[k])
    ensures forall k :: 0 <= k < |ctx.drives| && Eligible(ctx, prize, awarded, winners, ctx.drives[k]) ==> ctx.drives[k] in r
  {
    Filter(ctx.drives, d => Eligible(ctx, prize, awarded, winners, d))
  }

  /** A drive is a candidate as many times as it occurs among the drives when it is eligible,
      and not at all otherwise: a duplicated drive keeps its extra chance. */
  lemma CandidatesCount(ctx: Context, prize: Prize, awarded: seq<PrizeAward>, winners: seq<Drive>, d: Drive)
    ensures multiset(Candidates(ctx, prize, awarded, winners))[d]
      == if Eligible(ctx, prize, awarded, winners, d) then multiset(ctx.drives)[d] else 0
  {
    FilterCount(ctx.drives, d => Eligible(ctx, prize, awarded, winners, d), d);
  }

  /** More round winners can only remove candidates; in particular a prize with no candidate
      keeps having none. */
  lemma CandidatesShrink(ctx: Context, prize: Prize, awarded: seq<PrizeAward>, winners: seq<Drive>, more: seq<Drive>)
    ensures forall d :: d in Candidates(ctx, prize, awarded, winners + more) ==> d in Candidates(ctx, prize, awarded, winners)
    ensures Candidates(ctx, prize, awarded, winners) == [] ==> Candidates(ctx, prize, awarded, winners + more) == []
  {
    forall d | d in Candidates(ctx, prize, awarded, winners + more)
      ensures d in Candidates(ctx, prize, awarded, winners)
    {
      var r := Candidates(ctx, prize, awarded, winners + more);
      var k :| 0 <= k < |r| && r[k] == d;
      assert Eligible(ctx, prize, awarded, winners + more, d);
      forall m | 0 <= m < |winners| ensures (winners + more)[m] == winners[m] { }
      var i :| 0 <= i < |ctx.drives| && ctx.drives[i] == d;
    }
    var r := Candidates(ctx, prize, awarded, winners + more);
    assert r != [] ==> r[0] in r;
  }
}
