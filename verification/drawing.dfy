// One drawing round (`draw`) and the rounds that repeat it until every prize is
// awarded, shared by src/main.ts and main.js. `Math.random` is the choice of any
// index below the number of candidates; the chosen indices are returned as ghost
// `picks`, and the specification functions take them as a parameter, so every
// property below holds whatever the random choices were.
module Drawing {
  import opened Common
  import opened Models
  import opened Eligibility

  /** The drives that won the awards, in award order. */
  function Winners(awards: seq<PrizeAward>): (ws: seq<Drive>)
    ensures |ws| == |awards|
    ensures forall k :: 0 <= k < |awards| ==> ws[k] == awards[k].winner
  {
    seq(|awards|, k requires 0 <= k < |awards| => awards[k].winner)
  }

  /** The prizes of the awards, in award order. */
  function AwardPrizes(awards: seq<PrizeAward>): (ps: seq<Prize>)
    ensures |ps| == |awards|
    ensures forall k :: 0 <= k < |awards| ==> ps[k] == awards[k].prize
  {
    seq(|awards|, k requires 0 <= k < |awards| => awards[k].prize)
  }

  /** The random index drawn for the `n`-th prize (0 if none was recorded). */
  function Pick(picks: seq<nat>, n: nat): nat
  {
    if n < |picks| then picks[n] else 0
  }

  /** The reduce step of `draw` for one prize: with no candidate the prize is set aside;
      otherwise the candidate at the drawn index wins it (an index past the candidates, which
      `Math.floor(Math.random() * length)` never gives, stands for the first one). */
  function DrawOne(ctx: Context, prior: seq<PrizeAward>, rr: RoundResults, prize: Prize, pick: nat): RoundResults
  {
    var candidates := Candidates(ctx, prize, prior, Winners(rr.awarded));
    if |candidates| == 0 then RoundResults(rr.awarded, rr.unawarded + [prize])
    else RoundResults(rr.awarded + [PrizeAward(prize, candidates[if pick < |candidates| then pick else 0])], rr.unawarded)
  }

  /** `draw` over the prizes in order, against the awards of earlier rounds `prior`, with the
      `n`-th prize's random index `Pick(picks, n)`. */
  function DrawSpec(ctx: Context, prior: seq<PrizeAward>, prizes: seq<Prize>, picks: seq<nat>): RoundResults
  {
    if prizes == [] then RoundResults([], [])
    else
      var n := |prizes| - 1;
      DrawOne(ctx, prior, DrawSpec(ctx, prior, prizes[..n], picks), prizes[n], Pick(picks, n))
  }

  /** `DrawSpec` on the first `n + 1` prizes is one `DrawOne` step after the first `n`. */
  lemma DrawSpecLast(ctx: Context, prior: seq<PrizeAward>, prizes: seq<Prize>, picks: seq<nat>, n: nat)
    requires n < |prizes|
    ensures DrawSpec(ctx, prior, prizes[..n + 1], picks)
      == DrawOne(ctx, prior, DrawSpec(ctx, prior, prizes[..n], picks), prizes[n], Pick(picks, n))
  {
    assert prizes[..n + 1][..n] == prizes[..n];
  }

  /** Only the first `|prizes|` picks matter. */
  lemma {:induction false} DrawSpecPicks(ctx: Context, prior: seq<PrizeAward>, prizes: seq<Prize>, p1: seq<nat>, p2: seq<nat>)
    requires forall n :: 0 <= n < |prizes| ==> Pick(p1, n) == Pick(p2, n)
    ensures DrawSpec(ctx, prior, prizes, p1) == DrawSpec(ctx, prior, prizes, p2)
  {
    if prizes != [] {
      DrawSpecPicks(ctx, prior, prizes[..|prizes| - 1], p1, p2);
    }
  }

  /** `draw`: the reduce with its `winners` and `unawarded` accumulators. */
  method Draw(ctx: Context, prior: seq<PrizeAward>, prizes: seq<Prize>) returns (result: RoundResults, ghost picks: seq<nat>)
    ensures |picks| == |prizes|
    ensures result == DrawSpec(ctx, prior, prizes, picks)
  {
    var winners: seq<Drive> := [];
    var unawarded: seq<Prize> := [];
    var awards: seq<PrizeAward> := [];
    picks := [];
    for n := 0 to |prizes|
      invariant |picks| == n
      invariant RoundResults(awards, unawarded) == DrawSpec(ctx, prior, prizes[..n], picks)
      invariant winners == Winners(awards)
    {
      ghost var before := RoundResults(awards, unawarded);
      var prize := prizes[n];
      var candidates := Candidates(ctx, prize, prior, winners);
      ghost var pick: nat := 0;
      if |candidates| == 0 {
        unawarded := unawarded + [prize];
      } else {
        var winnerIndex :| 0 <= winnerIndex < |candidates|;
        var winner := candidates[winnerIndex];
        winners := winners + [winner];
        awards := awards + [PrizeAward(prize, winner)];
        pick := winnerIndex;
        
        assert Winners(awards) == Winners(before.awarded) + [winner];
      }
      assert RoundResults(awards, unawarded) == DrawOne(ctx, prior, before, prize, pick);
      DrawSpecPicks(ctx, prior, prizes[..n], picks, picks + [pick]);
      DrawSpecLast(ctx, prior, prizes, picks + [pick], n);
      picks := picks + [pick];
    }
    assert prizes[..|prizes|] == prizes;
    result := RoundResults(awards, unawarded);
  }

  /** The effect of one step: either the prize is set aside, or one award for it is appended. */
  lemma DrawOneShape(ctx: Context, prior: seq<PrizeAward>, rr: RoundResults, prize: Prize, pick: nat)
    ensures var rr' := DrawOne(ctx, prior, rr, prize, pick);
      || (rr'.awarded == rr.awarded && rr'.unawarded == rr.unawarded + [prize])
      || (rr'.unawarded == rr.unawarded && rr'.awarded == rr.awarded + [rr'.awarded[|rr.awarded|]]
          && rr'.awarded[|rr.awarded|].prize == prize)
  {
  }

  /** A round splits its prizes between the awards and the set-aside list without loss or
      duplication. */
  lemma {:induction false} DrawConserves(ctx: Context, prior: seq<PrizeAward>, prizes: seq<Prize>, picks: seq<nat>)
    ensures var rr := DrawSpec(ctx, prior, prizes, picks);
      && |rr.awarded| + |rr.unawarded| == |prizes|
      && multiset(prizes) == multiset(AwardPrizes(rr.awarded)) + multiset(rr.unawarded)
  {
    if prizes != [] {
      var n := |prizes| - 1;
      assert prizes == prizes[..n] + [prizes[n]];
      DrawConserves(ctx, prior, prizes[..n], picks);
      DrawOneConserves(ctx, prior, DrawSpec(ctx, prior, prizes[..n], picks), prizes[n], Pick(picks, n));
    }
  }

  /** One step adds its prize to the awards or to the set-aside list. */
  lemma DrawOneConserves(ctx: Context, prior: seq<PrizeAward>, rr: RoundResults, prize: Prize, pick: nat)
    ensures var rr' := DrawOne(ctx, prior, rr, prize, pick);
      && |rr'.awarded| + |rr'.unawarded| == |rr.awarded| + |rr.unawarded| + 1
      && multiset(AwardPrizes(rr'.awarded)) + multiset(rr'.unawarded)
        == multiset(AwardPrizes(rr.awarded)) + multiset(rr.unawarded) + multiset{prize}
  {
    DrawOneShape(ctx, prior, rr, prize, pick);
    var rr' := DrawOne(ctx, prior, rr, prize, pick);
    if rr'.awarded != rr.awarded {
      assert AwardPrizes(rr'.awarded) == AwardPrizes(rr.awarded) + [prize];
    }
  }

  /** The awards keep the order of the prizes. */
  lemma {:induction false} DrawKeepsOrder(ctx: Context, prior: seq<PrizeAward>, prizes: seq<Prize>, picks: seq<nat>)
    ensures IsSubsequence(AwardPrizes(DrawSpec(ctx, prior, prizes, picks).awarded), prizes)
  {
    if prizes == [] {
      SubsequenceNil(prizes);
    } else {
      var n := |prizes| - 1;
      var front := prizes[..n];
      var prize := prizes[n];
      assert prizes == front + [prize];
      DrawKeepsOrder(ctx, prior, front, picks);
      var rr := DrawSpec(ctx, prior, front, picks);
      DrawOneShape(ctx, prior, rr, prize, Pick(picks, n));
      var rr' := DrawSpec(ctx, prior, prizes, picks);
      if rr'.awarded == rr.awarded {
        SubsequenceExtend(AwardPrizes(rr.awarded), front, prize);
      } else {
        assert AwardPrizes(rr'.awarded) == AwardPrizes(rr.awarded) + [prize];
        SubsequenceSnoc(AwardPrizes(rr.awarded), front, prize);
      }
    }
  }

  /** The prizes set aside keep the order of the prizes. */
  lemma {:induction false} DrawKeepsUnawardedOrder(ctx: Context, prior: seq<PrizeAward>, prizes: seq<Prize>, picks: seq<nat>)
    ensures IsSubsequence(DrawSpec(ctx, prior, prizes, picks).unawarded, prizes)
  {
    if prizes == [] {
      SubsequenceNil(prizes);
    } else {
      var n := |prizes| - 1;
      var front := prizes[..n];
      var prize := prizes[n];
      assert prizes == front + [prize];
      DrawKeepsUnawardedOrder(ctx, prior, front, picks);
      var rr := DrawSpec(ctx, prior, front, picks);
      DrawOneShape(ctx, prior, rr, prize, Pick(picks, n));
      var rr' := DrawSpec(ctx, prior, prizes, picks);
      if rr'.awarded == rr.awarded {
        SubsequenceSnoc(rr.unawarded, front, prize);
      } else {
        SubsequenceExtend(rr.unawarded, front, prize);
      }
    }
  }

  /** Each winner was a candidate for its prize when it was drawn: against the awards of
      earlier rounds and the winners drawn before it in this round. */
  lemma {:induction false} DrawWinnersWereCandidates(ctx: Context, prior: seq<PrizeAward>, prizes: seq<Prize>, picks: seq<nat>)
    ensures var aw := DrawSpec(ctx, prior, prizes, picks).awarded;
      forall k :: 0 <= k < |aw| ==> aw[k].winner in Candidates(ctx, aw[k].prize, prior, Winners(aw[..k]))
  {
    if prizes != [] {
      var n := |prizes| - 1;
      assert prizes[..n + 1] == prizes;
      DrawSpecLast(ctx, prior, prizes, picks, n);
      DrawWinnersWereCandidates(ctx, prior, prizes[..n], picks);
      var aw := DrawSpec(ctx, prior, prizes[..n], picks).awarded;
      var aw' := DrawSpec(ctx, prior, prizes, picks).awarded;
      if aw' != aw {
        assert aw'[..|aw|] == aw;
        forall k | 0 <= k < |aw'|
          ensures aw'[k].winner in Candidates(ctx, aw'[k].prize, prior, Winners(aw'[..k]))
        {
          if k < |aw| {
            assert aw'[..k] == aw[..k];
          }
        }
      }
    }
  }

  /** Each prize set aside still has no candidate once the round is over. */
  lemma {:induction false} DrawUnawardedExhausted(ctx: Context, prior: seq<PrizeAward>, prizes: seq<Prize>, picks: seq<nat>)
    ensures var rr := DrawSpec(ctx, prior, prizes, picks);
      forall k :: 0 <= k < |rr.unawarded| ==> Candidates(ctx, rr.unawarded[k], prior, Winners(rr.awarded)) == []
  {
    if prizes != [] {
      var n := |prizes| - 1;
      assert prizes[..n + 1] == prizes;
      DrawSpecLast(ctx, prior, prizes, picks, n);
      DrawUnawardedExhausted(ctx, prior, prizes[..n], picks);
      var rr := DrawSpec(ctx, prior, prizes[..n], picks);
      var rr' := DrawSpec(ctx, prior, prizes, picks);
      if rr'.awarded != rr.awarded {
        var x := rr'.awarded[|rr.awarded|];
        assert rr'.awarded == rr.awarded + [x];
        ExhaustedAfterWinner(ctx, prior, rr.unawarded, rr.awarded, x);
      }
    }
  }

  /** One more winner leaves every prize without a candidate still without one. */
  lemma ExhaustedAfterWinner(ctx: Context, prior: seq<PrizeAward>, unawarded: seq<Prize>, awarded: seq<PrizeAward>, x: PrizeAward)
    requires forall k :: 0 <= k < |unawarded| ==> Candidates(ctx, unawarded[k], prior, Winners(awarded)) == []
    ensures forall k :: 0 <= k < |unawarded| ==> Candidates(ctx, unawarded[k], prior, Winners(awarded + [x])) == []
  {
    assert Winners(awarded + [x]) == Winners(awarded) + [x.winner];
    forall k | 0 <= k < |unawarded| ensures Candidates(ctx, unawarded[k], prior, Winners(awarded + [x])) == [] {
      CandidatesShrink(ctx, unawarded[k], prior, Winners(awarded), [x.winner]);
    }
  }

  /** The `k`-th prize at its own turn: it is set aside exactly when it has no candidate against
      the prior awards and the winners drawn before it, and otherwise one of those candidates
      wins it, while the earlier results stay as they were. */
  lemma DrawTurn(ctx: Context, prior: seq<PrizeAward>, prizes: seq<Prize>, picks: seq<nat>, k: nat)
    requires k < |prizes|
    ensures var before := DrawSpec(ctx, prior, prizes[..k], picks);
      var after := DrawSpec(ctx, prior, prizes[..k + 1], picks);
      Candidates(ctx, prizes[k], prior, Winners(before.awarded)) == [] <==> |after.unawarded| == |before.unawarded| + 1
    ensures var before := DrawSpec(ctx, prior, prizes[..k], picks);
      var after := DrawSpec(ctx, prior, prizes[..k + 1], picks);
      Candidates(ctx, prizes[k], prior, Winners(before.awarded)) == [] ==>
        after.awarded == before.awarded && after.unawarded == before.unawarded + [prizes[k]]
    ensures var before := DrawSpec(ctx, prior, prizes[..k], picks);
      var after := DrawSpec(ctx, prior, prizes[..k + 1], picks);
      var candidates := Candidates(ctx, prizes[k], prior, Winners(before.awarded));
      candidates != [] ==>
        && after.unawarded == before.unawarded
        && |after.awarded| == |before.awarded| + 1
        && after.awarded[..|before.awarded|] == before.awarded
        && after.awarded[|before.awarded|].prize == prizes[k]
        && after.awarded[|before.awarded|].winner in candidates
  {
    DrawSpecLast(ctx, prior, prizes, picks, k);
  }

  /** No driver wins two prizes in one round. */
  lemma DrawDistinctWinners(ctx: Context, prior: seq<PrizeAward>, prizes: seq<Prize>, picks: seq<nat>)
    ensures var aw := DrawSpec(ctx, prior, prizes, picks).awarded;
      forall i, j :: 0 <= i < j < |aw| ==> aw[i].winner.driverName != aw[j].winner.driverName
  {
    var aw := DrawSpec(ctx, prior, prizes, picks).awarded;
    DrawWinnersWereCandidates(ctx, prior, prizes, picks);
    forall i, j | 0 <= i < j < |aw| ensures aw[i].winner.driverName != aw[j].winner.driverName {
      assert !WonThisRound(Winners(aw[..j]), aw[j].winner.driverName);
      assert Winners(aw[..j])[i] == aw[i].winner;
    }
  }

  /** A round never gives a driver a prize of a sponsor that already gave them one in an
      earlier round. */
  lemma DrawRespectsPrior(ctx: Context, prior: seq<PrizeAward>, prizes: seq<Prize>, picks: seq<nat>)
    ensures var aw := DrawSpec(ctx, prior, prizes, picks).awarded;
      forall k :: 0 <= k < |aw| ==> !WonFromSponsor(prior, aw[k].winner.driverName, aw[k].prize.sponsorName)
  {
    DrawWinnersWereCandidates(ctx, prior, prizes, picks);
  }

  // ---------------------------------------------------------------------------
  // the rounds

  /** One pass of the loop body: `draw` the prizes still unawarded against everything awarded
      so far, append the new awards, and keep what is still unawarded. */
  function Round(ctx: Context, s: RoundResults, picks: seq<nat>): RoundResults
  {
    var rr := DrawSpec(ctx, s.awarded, s.unawarded, picks);
    RoundResults(s.awarded + rr.awarded, rr.unawarded)
  }

  /** The state after the rounds whose random indices are `rounds`, starting from nothing
      awarded and every prize unawarded. */
  function Rounds(ctx: Context, prizes: seq<Prize>, rounds: seq<seq<nat>>): RoundResults
  {
    if rounds == [] then RoundResults([], prizes)
    else Round(ctx, Rounds(ctx, prizes, rounds[..|rounds| - 1]), rounds[|rounds| - 1])
  }

  /** No driver holds two awards from the same sponsor. */
  predicate NoSponsorRepeat(awards: seq<PrizeAward>)
  {
    forall i, j :: 0 <= i < j < |awards| && awards[i].winner.driverName == awards[j].winner.driverName ==>
      awards[i].prize.sponsorName != awards[j].prize.sponsorName
  }

  /** An award to a drive of the right race, in a car with the sponsor's sticker, and not to a
      driver in Toyo cooldown when the sponsor is Toyo. */
  predicate ValidAward(ctx: Context, a: PrizeAward)
  {
    && a.winner in ctx.drives
    && RaceMatches(a.prize, a.winner)
    && HasSticker(ctx.variant, ctx.cars, a.winner.number, a.prize.sponsorName)
    && !(a.prize.sponsorName == ToyoSponsor && InCooldown(a.winner.driverName, ctx.history))
  }

  /** What holds after any number of rounds: no prize is lost or duplicated, no driver has two
      awards from one sponsor, and every award is valid. */
  ghost predicate RaffleInvariant(ctx: Context, prizes: seq<Prize>, s: RoundResults)
  {
    && multiset(prizes) == multiset(AwardPrizes(s.awarded)) + multiset(s.unawarded)
    && NoSponsorRepeat(s.awarded)
    && forall k :: 0 <= k < |s.awarded| ==> ValidAward(ctx, s.awarded[k])
  }

  /** A round keeps the invariant and only appends to the awards. */
  lemma RoundPreserves(ctx: Context, prizes: seq<Prize>, s: RoundResults, picks: seq<nat>)
    requires RaffleInvariant(ctx, prizes, s)
    ensures RaffleInvariant(ctx, prizes, Round(ctx, s, picks))
    ensures Round(ctx, s, picks).awarded[..|s.awarded|] == s.awarded
  {
    var all := Round(ctx, s, picks).awarded;
    assert all == s.awarded + DrawSpec(ctx, s.awarded, s.unawarded, picks).awarded;
    RoundKeepsPrizes(ctx, prizes, s, picks);
    RoundKeepsValid(ctx, s, picks);
    RoundNoSponsorRepeat(ctx, s.awarded, s.unawarded, picks);
    assert all[..|s.awarded|] == s.awarded;
  }

  /** Every award stays valid after a round. */
  lemma RoundKeepsValid(ctx: Context, s: RoundResults, picks: seq<nat>)
    requires forall k :: 0 <= k < |s.awarded| ==> ValidAward(ctx, s.awarded[k])
    ensures var all := Round(ctx, s, picks).awarded;
      forall k :: 0 <= k < |all| ==> ValidAward(ctx, all[k])
  {
    var r := DrawSpec(ctx, s.awarded, s.unawarded, picks).awarded;
    RoundAwardsValid(ctx, s.awarded, s.unawarded, picks);
    assert var aw := DrawSpec(ctx, s.awarded, s.unawarded, picks).awarded;
      forall k :: 0 <= k < |aw| ==> ValidAward(ctx, aw[k]);
    ValidAppend(ctx, s.awarded, r);
    assert Round(ctx, s, picks).awarded == s.awarded + r;
  }

  /** Two lists of valid awards make one. */
  lemma ValidAppend(ctx: Context, a: seq<PrizeAward>, r: seq<PrizeAward>)
    requires forall k :: 0 <= k < |a| ==> ValidAward(ctx, a[k])
    requires forall k :: 0 <= k < |r| ==> ValidAward(ctx, r[k])
    ensures forall k :: 0 <= k < |a + r| ==> ValidAward(ctx, (a + r)[k])
  {
    forall k | 0 <= k < |a + r| ensures ValidAward(ctx, (a + r)[k]) {
      if k < |a| {
        assert (a + r)[k] == a[k];
      } else {
        assert (a + r)[k] == r[k - |a|];
      }
    }
  }

  /** A round neither loses nor duplicates a prize: each one drawn moves from the unawarded
      prizes to the awards. */
  lemma RoundKeepsPrizes(ctx: Context, prizes: seq<Prize>, s: RoundResults, picks: seq<nat>)
    requires multiset(prizes) == multiset(AwardPrizes(s.awarded)) + multiset(s.unawarded)
    ensures var r := Round(ctx, s, picks);
      multiset(prizes) == multiset(AwardPrizes(r.awarded)) + multiset(r.unawarded)
  {
    var rr := DrawSpec(ctx, s.awarded, s.unawarded, picks);
    DrawConserves(ctx, s.awarded, s.unawarded, picks);
    assert multiset(s.unawarded) == multiset(AwardPrizes(rr.awarded)) + multiset(rr.unawarded);
    var before := AwardPrizes(s.awarded);
    var drawn := AwardPrizes(rr.awarded);
    assert AwardPrizes(s.awarded + rr.awarded) == before + drawn;
    assert multiset(before + drawn) == multiset(before) + multiset(drawn);
    assert Round(ctx, s, picks) == RoundResults(s.awarded + rr.awarded, rr.unawarded);
  }

  /** The awards of a round are valid. */
  lemma RoundAwardsValid(ctx: Context, prior: seq<PrizeAward>, prizes: seq<Prize>, picks: seq<nat>)
    ensures var r := DrawSpec(ctx, prior, prizes, picks).awarded;
      forall k :: 0 <= k < |r| ==> ValidAward(ctx, r[k])
  {
    var r := DrawSpec(ctx, prior, prizes, picks).awarded;
    DrawWinnersWereCandidates(ctx, prior, prizes, picks);
    forall k | 0 <= k < |r| ensures ValidAward(ctx, r[k]) {
      var c := Candidates(ctx, r[k].prize, prior, Winners(r[..k]));
      assert r[k].winner in c;
      var i :| 0 <= i < |c| && c[i] == r[k].winner;
    }
  }

  /** Appending a round's awards to awards without a repeated driver and sponsor keeps it so. */
  lemma RoundNoSponsorRepeat(ctx: Context, prior: seq<PrizeAward>, prizes: seq<Prize>, picks: seq<nat>)
    requires NoSponsorRepeat(prior)
    ensures NoSponsorRepeat(prior + DrawSpec(ctx, prior, prizes, picks).awarded)
  {
    var r := DrawSpec(ctx, prior, prizes, picks).awarded;
    var all := prior + r;
    var n := |prior|;
    DrawDistinctWinners(ctx, prior, prizes, picks);
    assert var aw := DrawSpec(ctx, prior, prizes, picks).awarded;
      forall i, j :: 0 <= i < j < |aw| ==> aw[i].winner.driverName != aw[j].winner.driverName;
    forall i, j | n <= i < j < |all| ensures all[i].winner.driverName != all[j].winner.driverName {
      assert all[i] == r[i - n] && all[j] == r[j - n];
    }
    DrawRespectsPrior(ctx, prior, prizes, picks);
    assert var aw := DrawSpec(ctx, prior, prizes, picks).awarded;
      forall k :: 0 <= k < |aw| ==> !WonFromSponsor(prior, aw[k].winner.driverName, aw[k].prize.sponsorName);
    forall i, j | 0 <= i < j < |all| && all[i].winner.driverName == all[j].winner.driverName
      ensures all[i].prize.sponsorName != all[j].prize.sponsorName
    {
      if j < n {
        assert all[i] == prior[i] && all[j] == prior[j];
      } else if i < n {
        var k := j - n;
        assert all[i] == prior[i] && all[j] == r[k];
        assert !WonFromSponsor(prior, r[k].winner.driverName, r[k].prize.sponsorName);
      } else {
        assert false;
      }
    }
  }

  /** Every sequence of rounds keeps the invariant. */
  lemma {:induction false} RoundsPreserve(ctx: Context, prizes: seq<Prize>, rounds: seq<seq<nat>>)
    ensures RaffleInvariant(ctx, prizes, Rounds(ctx, prizes, rounds))
  {
    if rounds == [] {
      assert AwardPrizes([]) == [];
    } else {
      RoundsPreserve(ctx, prizes, rounds[..|rounds| - 1]);
      RoundPreserves(ctx, prizes, Rounds(ctx, prizes, rounds[..|rounds| - 1]), rounds[|rounds| - 1]);
    }
  }

  /** The body of the round loop (src/main.ts and main.js alike). */
  method RunRound(ctx: Context, awarded: seq<PrizeAward>, unawarded: seq<Prize>)
    returns (newAwarded: seq<PrizeAward>, newUnawarded: seq<Prize>, ghost picks: seq<nat>)
    ensures RoundResults(newAwarded, newUnawarded) == Round(ctx, RoundResults(awarded, unawarded), picks)
    ensures |newAwarded| + |newUnawarded| == |awarded| + |unawarded|
    ensures newAwarded[..|awarded|] == awarded
  {
    var rr;
    rr, picks := Draw(ctx, awarded, unawarded);
    DrawConserves(ctx, awarded, unawarded, picks);
    newAwarded := awarded + rr.awarded;
    newUnawarded := rr.unawarded;
  }

  /** The round loop of src/main.ts: at most four rounds, stopping early once nothing is left
      unawarded, and never drawing a round once nothing is left. Whatever the random choices, no prize is lost, no driver ends with two awards
      from the same sponsor, and every award is valid. */
  method RunRaffle(ctx: Context, prizes: seq<Prize>)
    returns (awarded: seq<PrizeAward>, unawarded: seq<Prize>, round: int, ghost rounds: seq<seq<nat>>)
    ensures RoundResults(awarded, unawarded) == Rounds(ctx, prizes, rounds)
    ensures round == |rounds| + 1 && |rounds| <= 4
    ensures |rounds| < 4 ==> unawarded == []
    ensures forall k :: 0 <= k < |rounds| ==> Rounds(ctx, prizes, rounds[..k]).unawarded != []
    ensures multiset(prizes) == multiset(AwardPrizes(awarded)) + multiset(unawarded)
    ensures NoSponsorRepeat(awarded)
    ensures forall k :: 0 <= k < |awarded| ==> ValidAward(ctx, awarded[k])
  {
    awarded := [];
    unawarded := prizes;
    round := 1;
    rounds := [];
    while |unawarded| > 0 && round < 5
      invariant round == |rounds| + 1 && round <= 5
      invariant RoundResults(awarded, unawarded) == Rounds(ctx, prizes, rounds)
      invariant forall k :: 0 <= k < |rounds| ==> Rounds(ctx, prizes, rounds[..k]).unawarded != []
    {
      ghost var picks;
      awarded, unawarded, picks := RunRound(ctx, awarded, unawarded);
      assert (rounds + [picks])[..|rounds|] == rounds;
      assert forall k :: 0 <= k <= |rounds| ==> (rounds + [picks])[..k] == rounds[..k];
      rounds := rounds + [picks];
      round := round + 1;
    }
    RoundsPreserve(ctx, prizes, rounds);
  }
}
