/**
 * The server's state and its three handlers that touch it: the roster read
 * from candidates.json, and the contents of tokens.json and votes.json, which
 * the vote and issuance handlers read, update and write back.
 */
module Server {
  import opened Wrappers
  import opened Records
  import opened Admission
  import opened Tabulation

  class Store {
    /** candidates.json: the roster, never written by the server. */
    const candidates: seq<string>
    /** tokens.json */
    var tokens: seq<Token>
    /** votes.json */
    var votes: seq<Vote>

    ghost predicate Valid()
      reads this
    {
      Distinct(candidates) && LedgerValid(candidates, Ledger(tokens, votes))
    }

    /** First start: a roster and no tokens or votes yet. */
    constructor (candidates: seq<string>)
      requires Distinct(candidates)
      ensures Valid()
      ensures this.candidates == candidates && tokens == [] && votes == []
    {
      this.candidates := candidates;
      tokens := [];
      votes := [];
      new;
      assert UsedIds([]) == {};
      assert VoteTokens([]) == {};
    }

    /** POST /api/vote: the checks in the handler's order; on success the
        vote is appended with time `votedAt` and the token is marked used at
        `usedAt` (the two clock readings of the handler). */
    method SubmitVote(ballot: seq<string>, token: Option<string>, votedAt: int, usedAt: int)
      returns (reply: Reply)
      requires Valid()
      modifies this
      ensures Valid()
      ensures (reply, Ledger(tokens, votes)) ==
              Submit(old(Ledger(tokens, votes)), candidates, ballot, token, votedAt, usedAt)
      ensures reply.Rejected? ==> tokens == old(tokens) && votes == old(votes)
      ensures reply.Recorded? ==> votes == old(votes) + [Vote(ballot, votedAt, token.value)]
    {
      if Missing(token) {
        return Rejected(MissingToken);
      }
      var id := token.value;
      var found := FindToken(tokens, id);
      if found.None? {
        return Rejected(InvalidToken);
      }
      var k := found.value;
      if tokens[k].used {
        return Rejected(TokenAlreadyUsed);
      }
      var problem := CheckBallot(ballot);
      if problem.Some? {
        return Rejected(problem.value);
      }
      ghost var before := Ledger(tokens, votes);
      assert Screen(tokens, candidates, ballot, token) == Admit(k);
      SubmitPreservesValid(before, candidates, ballot, token, votedAt, usedAt);
      votes := votes + [Vote(ballot, votedAt, id)];
      tokens := tokens[k := tokens[k].(used := true, usedAt := Some(usedAt))];
      reply := Recorded;
    }

    /** The ballot part of POST /api/vote: exactly 14 rankings, no repeats
        (the size of the ballot's `Set`), then the first name off the roster. */
    method CheckBallot(ballot: seq<string>) returns (problem: Option<VoteError>)
      ensures problem == BallotError(ballot, candidates)
    {
      if |ballot| != K {
        return Some(WrongLength);
      }
      if |Elements(ballot)| != |ballot| {
        return Some(DuplicateCandidate);
      }
      var i := 0;
      while i < |ballot|
        invariant 0 <= i <= |ballot|
        invariant forall j :: 0 <= j < i ==> ballot[j] in candidates
      {
        if ballot[i] !in candidates {
          assert FirstUnknown(ballot, candidates) == Some(i);
          return Some(UnknownCandidate(ballot[i]));
        }
        i := i + 1;
      }
      assert FirstUnknown(ballot, candidates) == None;
      return None;
    }

    /** POST /api/admin/generate-link: append an unused token with the fresh
        id `id` (the handler's uuid) created at `now`. */
    method GenerateLink(id: string, now: int) returns (entry: Token)
      requires Valid()
      requires forall i :: 0 <= i < |tokens| ==> tokens[i].id != id
      modifies this
      ensures Valid()
      ensures entry == Issued(id, now) && !entry.used && entry.usedAt.None?
      ensures tokens == old(tokens) + [entry] && votes == old(votes)
    {
      IssuePreservesValid(Ledger(tokens, votes), candidates, id, now);
      entry := Issued(id, now);
      tokens := tokens + [entry];
    }

    /** GET /api/admin/results: the winners for the recorded votes. */
    method Results() returns (winners: seq<string>)
      requires Valid()
      ensures winners == Tabulate(candidates, votes)
      ensures |winners| <= K && |winners| <= |candidates| && Distinct(winners)
      ensures forall c :: c in winners ==> c in candidates
    {
      assert OnRoster(candidates, votes) by {
        forall j, k | 0 <= j < |votes| && 0 <= k < |votes[j].ballot|
          ensures votes[j].ballot[k] in candidates
        {
          assert WellFormed(votes[j].ballot, candidates);
        }
      }
      winners := ComputeWinners(candidates, votes);
      TabulateShape(candidates, votes);
    }
  }
}
