/**
 * The report loop of mstream's `main`: every rank walks `drank` from 0 to
 * num_procs - 1, all ranks meet at a barrier at the start of each round,
 * and only the rank equal to `drank` prints its line in that round.
 */
module RankOrder {

  /** The rounds in which `rank` prints, in the order it reaches them. */
  function Turns(rank: nat, numProcs: int): seq<nat>
  {
    if rank < numProcs then [rank] else []
  }

  /** The loop one rank runs: returns the rounds in which it printed and
      the number of barriers it entered, one at the top of each round. */
  method PrintTurns(numProcs: int, rank: nat) returns (turns: seq<nat>, barriers: nat)
    ensures turns == Turns(rank, numProcs)
    ensures barriers == if numProcs > 0 then numProcs else 0
  {
    turns := [];
    barriers := 0;
    var drank := 0;
    while drank < numProcs
      invariant 0 <= drank <= if numProcs < 0 then 0 else numProcs
      invariant barriers == drank
      invariant turns == if rank < drank then [rank] else []
    {
      barriers := barriers + 1;
      if drank == rank {
        turns := turns + [drank];
      }
      drank := drank + 1;
    }
  }

  /** The ranks below n that print in round d, in rank order. */
  function PrintersIn(d: nat, n: nat, upTo: nat): (ps: seq<nat>)
    requires upTo <= n
    decreases upTo
  {
    if upTo == 0 then []
    else PrintersIn(d, n, upTo - 1) + (if d in Turns(upTo - 1, n) then [upTo - 1] else [])
  }

  /** Everything printed in rounds 0..rounds-1, round after round (the
      barrier separates the rounds). */
  function Output(n: nat, rounds: nat): seq<nat>
    requires rounds <= n
  {
    if rounds == 0 then [] else Output(n, rounds - 1) + PrintersIn(rounds - 1, n, n)
  }

  /** Exactly one rank prints in each round: the rank equal to the round. */
  lemma {:induction false} OnePrinterPerRound(d: nat, n: nat, upTo: nat)
    requires d < n && upTo <= n
    ensures PrintersIn(d, n, upTo) == if d < upTo then [d] else []
  {
    if upTo > 0 {
      OnePrinterPerRound(d, n, upTo - 1);
    }
  }

  /** The report lines appear once per rank, in ascending rank order. */
  lemma {:induction false} OutputInRankOrder(n: nat, rounds: nat)
    requires rounds <= n
    ensures Output(n, rounds) == seq(rounds, i requires 0 <= i < rounds => i as nat)
  {
    if rounds > 0 {
      OutputInRankOrder(n, rounds - 1);
      OnePrinterPerRound(rounds - 1, n, n);
    }
  }
}
