/**
 * Ballot admission (`POST /api/vote`) and token issuance
 * (`POST /api/admin/generate-link`) as functions on the two data files'
 * contents, with the properties the server relies on.
 */
module Admission {
  import opened Wrappers
  import opened Records

  /** Why a submission is turned away. */
  datatype VoteError =
    | MissingToken
    | InvalidToken
    | TokenAlreadyUsed
    | WrongLength
    | DuplicateCandidate
    | UnknownCandidate(name: string)

  /** What the handler answers. */
  datatype Reply = Recorded | Rejected(error: VoteError)

  /** Outcome of the checks: the position of the token to redeem, or the first failure. */
  datatype Verdict = Admit(index: nat) | Refuse(error: VoteError)

  /** The contents of tokens.json and votes.json. */
  datatype Ledger = Ledger(tokens: seq<Token>, votes: seq<Vote>)

  /** The request carried no token: absent, or the empty string (both falsy). */
  predicate Missing(token: Option<string>)
  {
    token.None? || token.value == ""
  }

  /** Position of the first token with this id (what `tokens.find` returns). */
  function FindToken(tokens: seq<Token>, id: string): (r: Option<nat>)
    ensures r.Some? ==> r.value < |tokens| && tokens[r.value].id == id
    ensures r.Some? ==> forall j :: 0 <= j < r.value ==> tokens[j].id != id
    ensures r.None? ==> forall j :: 0 <= j < |tokens| ==> tokens[j].id != id
  {
    if tokens == [] then None
    else if tokens[0].id == id then Some(0)
    else match FindToken(tokens[1..], id)
      case None => None
      case Some(i) => Some(i + 1)
  }

  /** Position of the first ballot entry that is not a roster name. */
  function FirstUnknown(ballot: seq<string>, candidates: seq<string>): (r: Option<nat>)
    ensures r.Some? ==> r.value < |ballot| && ballot[r.value] !in candidates
    ensures r.Some? ==> forall j :: 0 <= j < r.value ==> ballot[j] in candidates
    ensures r.None? ==> forall j :: 0 <= j < |ballot| ==> ballot[j] in candidates
  {
    if ballot == [] then None
    else if ballot[0] !in candidates then Some(0)
    else match FirstUnknown(ballot[1..], candidates)
      case None => None
      case Some(i) => Some(i + 1)
  }

  /** The shape every recorded ballot must have. */
  predicate WellFormed(ballot: seq<string>, candidates: seq<string>)
  {
    |ballot| == K && Distinct(ballot) && forall j :: 0 <= j < |ballot| ==> ballot[j] in candidates
  }

  /** The handler's checks, in the handler's order; no state changes here. */
  function Screen(tokens: seq<Token>, candidates: seq<string>, ballot: seq<string>, token: Option<string>): (v: Verdict)
    ensures v.Admit? ==> !Missing(token) && v.index < |tokens|
    ensures v.Admit? ==> tokens[v.index].id == token.value && !tokens[v.index].used
    ensures v.Admit? ==> WellFormed(ballot, candidates)
  {
    if Missing(token) then Refuse(MissingToken)
    else match FindToken(tokens, token.value)
      case None => Refuse(InvalidToken)
      case Some(i) =>
        if tokens[i].used then Refuse(TokenAlreadyUsed)
        else match BallotError(ballot, candidates)
          case Some(e) => Refuse(e)
          case None => Admit(i)
  }

  /** The ballot checks of the handler, in its order: length, repeats, roster. */
  function BallotError(ballot: seq<string>, candidates: seq<string>): (r: Option<VoteError>)
    ensures r.None? <==> WellFormed(ballot, candidates)
  {
    ElementsCardinality(ballot);
    if |ballot| != K then Some(WrongLength)
    else if |Elements(ballot)| != |ballot| then Some(DuplicateCandidate)
    else match FirstUnknown(ballot, candidates)
      case Some(j) => Some(UnknownCandidate(ballot[j]))
      case None => None
  }

  /** A submission: on success the vote is appended and the matched token is marked used. */
  function Submit(l: Ledger, candidates: seq<string>, ballot: seq<string>, token: Option<string>,
                  votedAt: int, usedAt: int): (r: (Reply, Ledger))
    ensures r.0.Rejected? ==> r.1 == l
    ensures r.0.Recorded? ==> !Missing(token) && WellFormed(ballot, candidates)
    ensures r.0.Recorded? ==> r.1.votes == l.votes + [Vote(ballot, votedAt, token.value)]
    ensures |r.1.tokens| == |l.tokens|
    ensures forall i :: 0 <= i < |l.tokens| ==> r.1.tokens[i].id == l.tokens[i].id
  {
    match Screen(l.tokens, candidates, ballot, token)
    case Refuse(e) => (Rejected(e), l)
    case Admit(i) =>
      var redeemed := l.tokens[i].(used := true, usedAt := Some(usedAt));
      (Recorded, Ledger(l.tokens[i := redeemed], l.votes + [Vote(ballot, votedAt, token.value)]))
  }

  /** The token appended by issuance. */
  function Issued(id: string, now: int): Token
  {
    Token(id, false, now, None)
  }

  /** No two tokens share an id. */
  ghost predicate UniqueIds(tokens: seq<Token>)
  {
    forall i, j :: 0 <= i < j < |tokens| ==> tokens[i].id != tokens[j].id
  }

  /** Ids of the redeemed tokens. */
  ghost function UsedIds(tokens: seq<Token>): set<string>
  {
    set i | 0 <= i < |tokens| && tokens[i].used :: tokens[i].id
  }

  /** Tokens named by recorded votes. */
  ghost function VoteTokens(votes: seq<Vote>): set<string>
  {
    set j | 0 <= j < |votes| :: votes[j].token
  }

  /** The invariant the handlers keep: ids are unique, every recorded ballot is
      well formed, no two votes name the same token, a token is used exactly
      when some vote names it, and a used token carries its redemption time. */
  ghost predicate LedgerValid(candidates: seq<string>, l: Ledger)
  {
    && UniqueIds(l.tokens)
    && (forall j :: 0 <= j < |l.votes| ==> WellFormed(l.votes[j].ballot, candidates))
    && (forall j1, j2 :: 0 <= j1 < j2 < |l.votes| ==> l.votes[j1].token != l.votes[j2].token)
    && UsedIds(l.tokens) == VoteTokens(l.votes)
    && (forall i :: 0 <= i < |l.tokens| ==> (l.tokens[i].used <==> l.tokens[i].usedAt.Some?))
  }

  /** Number of votes naming `id`. */
  function VotesFor(votes: seq<Vote>, id: string): nat
  {
    if votes == [] then 0
    else VotesFor(votes[..|votes| - 1], id) + (if votes[|votes| - 1].token == id then 1 else 0)
  }

  /** The token checks, stated without the search: a missing token is
      reported first, then an id no token has, then a token already used. */
  lemma TokenChecks(tokens: seq<Token>, candidates: seq<string>, ballot: seq<string>, token: Option<string>)
    requires UniqueIds(tokens)
    ensures Screen(tokens, candidates, ballot, token) == Refuse(MissingToken) <==> Missing(token)
    ensures Screen(tokens, candidates, ballot, token) == Refuse(InvalidToken) <==>
              !Missing(token) && forall i :: 0 <= i < |tokens| ==> tokens[i].id != token.value
    ensures Screen(tokens, candidates, ballot, token) == Refuse(TokenAlreadyUsed) <==>
              !Missing(token) && exists i :: 0 <= i < |tokens| && tokens[i].id == token.value && tokens[i].used
  {
    if !Missing(token) {
      match FindToken(tokens, token.value)
      case None =>
      case Some(k) => assert tokens[k].id == token.value;
    }
  }

  /** The token can be redeemed: it is present and some token with that id is unused. */
  predicate Redeemable(tokens: seq<Token>, token: Option<string>)
  {
    !Missing(token) && exists i :: 0 <= i < |tokens| && tokens[i].id == token.value && !tokens[i].used
  }

  /** The ballot checks, applied only once the token is redeemable: wrong
      length first, then a repeated name, then the first name off the roster;
      a submission is admitted exactly when the token is redeemable and the
      ballot well formed, and then the token redeemed is the one with that id. */
  lemma BallotChecks(tokens: seq<Token>, candidates: seq<string>, ballot: seq<string>, token: Option<string>)
    requires UniqueIds(tokens)
    ensures Screen(tokens, candidates, ballot, token) == Refuse(WrongLength) <==>
              Redeemable(tokens, token) && |ballot| != K
    ensures Screen(tokens, candidates, ballot, token) == Refuse(DuplicateCandidate) <==>
              Redeemable(tokens, token) && |ballot| == K && !Distinct(ballot)
    ensures (Screen(tokens, candidates, ballot, token).Refuse? &&
             Screen(tokens, candidates, ballot, token).error.UnknownCandidate?) <==>
              Redeemable(tokens, token) && |ballot| == K && Distinct(ballot) &&
              exists j :: 0 <= j < |ballot| && ballot[j] !in candidates
    ensures forall n :: Screen(tokens, candidates, ballot, token) == Refuse(UnknownCandidate(n)) ==>
              exists j :: 0 <= j < |ballot| && ballot[j] == n && n !in candidates &&
                forall m :: 0 <= m < j ==> ballot[m] in candidates
    ensures Screen(tokens, candidates, ballot, token).Admit? <==>
              Redeemable(tokens, token) && WellFormed(ballot, candidates)
  {
    ElementsCardinality(ballot);
    TokenChecks(tokens, candidates, ballot, token);
    if !Missing(token) {
      var found := FindToken(tokens, token.value);
      if found.Some? {
        var k := found.value;
        if !tokens[k].used { assert Redeemable(tokens, token); }
      }
    }
  }

  /** A success changes exactly two things: it appends the vote, and it marks
      used (with its time) the one token whose id was submitted. */
  lemma SuccessEffects(l: Ledger, candidates: seq<string>, ballot: seq<string>, token: Option<string>,
                       votedAt: int, usedAt: int) returns (k: nat)
    requires Submit(l, candidates, ballot, token, votedAt, usedAt).0 == Recorded
    ensures k < |l.tokens| && l.tokens[k].id == token.value && !l.tokens[k].used
    ensures forall j :: 0 <= j < k ==> l.tokens[j].id != token.value
    ensures var after := Submit(l, candidates, ballot, token, votedAt, usedAt).1;
            && after.votes == l.votes + [Vote(ballot, votedAt, token.value)]
            && |after.tokens| == |l.tokens|
            && after.tokens[k] == Token(l.tokens[k].id, true, l.tokens[k].createdAt, Some(usedAt))
            && forall i :: 0 <= i < |l.tokens| && i != k ==> after.tokens[i] == l.tokens[i]
  {
    k := Screen(l.tokens, candidates, ballot, token).index;
  }

  /** Once a token has been redeemed, the next submission with it is turned
      away as already used, whatever its ballot, and changes nothing. */
  lemma SecondUseRejected(l: Ledger, candidates: seq<string>, ballot: seq<string>, token: Option<string>,
                          votedAt: int, usedAt: int,
                          ballot2: seq<string>, votedAt2: int, usedAt2: int)
    requires Submit(l, candidates, ballot, token, votedAt, usedAt).0 == Recorded
    ensures var after := Submit(l, candidates, ballot, token, votedAt, usedAt).1;
            Submit(after, candidates, ballot2, token, votedAt2, usedAt2) == (Rejected(TokenAlreadyUsed), after)
  {
    var k := Screen(l.tokens, candidates, ballot, token).index;
    var after := Submit(l, candidates, ballot, token, votedAt, usedAt).1;
    var found := FindToken(after.tokens, token.value);
    assert found == Some(k) by {
      assert after.tokens[k].id == token.value;
      assert forall j :: 0 <= j < k ==> after.tokens[j].id == l.tokens[j].id;
    }
  }

  /** Redeeming token `k` adds exactly its id to the used ids. */
  lemma UsedIdsAfterRedeem(tokens: seq<Token>, k: nat, t: Token)
    requires k < |tokens| && t.id == tokens[k].id && t.used && !tokens[k].used
    ensures UsedIds(tokens[k := t]) == UsedIds(tokens) + {t.id}
  {
    var after := tokens[k := t];
    forall x | x in UsedIds(after) ensures x in UsedIds(tokens) + {t.id} {
      var i :| 0 <= i < |after| && after[i].used && after[i].id == x;
      if i != k { assert tokens[i].used && tokens[i].id == x; }
    }
    forall x | x in UsedIds(tokens) + {t.id} ensures x in UsedIds(after) {
      if x == t.id {
        assert after[k].used && after[k].id == x;
      } else {
        var i :| 0 <= i < |tokens| && tokens[i].used && tokens[i].id == x;
        assert after[i] == tokens[i];
      }
    }
  }

  /** Appending a vote adds exactly its token to the tokens named by votes. */
  lemma VoteTokensAppend(votes: seq<Vote>, v: Vote)
    ensures VoteTokens(votes + [v]) == VoteTokens(votes) + {v.token}
  {
    var after := votes + [v];
    forall x | x in VoteTokens(after) ensures x in VoteTokens(votes) + {v.token} {
      var j :| 0 <= j < |after| && after[j].token == x;
      if j < |votes| { assert votes[j].token == x; }
    }
    forall x | x in VoteTokens(votes) + {v.token} ensures x in VoteTokens(after) {
      if x == v.token {
        assert after[|votes|].token == x;
      } else {
        var j :| 0 <= j < |votes| && votes[j].token == x;
        assert after[j] == votes[j];
      }
    }
  }

  /** Submissions keep the ledger invariant. */
  lemma SubmitPreservesValid(l: Ledger, candidates: seq<string>, ballot: seq<string>, token: Option<string>,
                             votedAt: int, usedAt: int)
    requires LedgerValid(candidates, l)
    ensures LedgerValid(candidates, Submit(l, candidates, ballot, token, votedAt, usedAt).1)
  {
    var v := Screen(l.tokens, candidates, ballot, token);
    if v.Admit? {
      var k := v.index;
      var id := token.value;
      var redeemed := l.tokens[k].(used := true, usedAt := Some(usedAt));
      var tokens' := l.tokens[k := redeemed];
      var vote := Vote(ballot, votedAt, id);
      var votes' := l.votes + [vote];
      assert Submit(l, candidates, ballot, token, votedAt, usedAt).1 == Ledger(tokens', votes');
      assert id !in UsedIds(l.tokens) by {
        forall i | 0 <= i < |l.tokens| && l.tokens[i].used ensures l.tokens[i].id != id {
          if i < k { assert l.tokens[i].id != l.tokens[k].id; }
          if i > k { assert l.tokens[k].id != l.tokens[i].id; }
        }
      }
      forall j | 0 <= j < |l.votes| ensures l.votes[j].token != id {
        assert l.votes[j].token in VoteTokens(l.votes);
      }
      UsedIdsAfterRedeem(l.tokens, k, redeemed);
      VoteTokensAppend(l.votes, vote);
      assert forall j :: 0 <= j < |l.votes| ==> votes'[j] == l.votes[j];
    }
  }

  /** Issuing a token with a fresh id keeps the ledger invariant. */
  lemma IssuePreservesValid(l: Ledger, candidates: seq<string>, id: string, now: int)
    requires LedgerValid(candidates, l)
    requires forall i :: 0 <= i < |l.tokens| ==> l.tokens[i].id != id
    ensures LedgerValid(candidates, Ledger(l.tokens + [Issued(id, now)], l.votes))
  {
    var after := l.tokens + [Issued(id, now)];
    assert forall i :: 0 <= i < |l.tokens| ==> after[i] == l.tokens[i];
    assert UsedIds(after) == UsedIds(l.tokens) by {
      forall x | x in UsedIds(after) ensures x in UsedIds(l.tokens) {
        var i :| 0 <= i < |after| && after[i].used && after[i].id == x;
        assert i < |l.tokens|;
      }
      forall x | x in UsedIds(l.tokens) ensures x in UsedIds(after) {
        var i :| 0 <= i < |l.tokens| && l.tokens[i].used && l.tokens[i].id == x;
        assert after[i] == l.tokens[i];
      }
    }
  }

  /** A freshly issued token admits a well-formed ballot, and redeems the new entry. */
  lemma IssuedTokenAdmits(tokens: seq<Token>, candidates: seq<string>, id: string, now: int, ballot: seq<string>)
    requires id != ""
    requires forall i :: 0 <= i < |tokens| ==> tokens[i].id != id
    requires WellFormed(ballot, candidates)
    ensures Screen(tokens + [Issued(id, now)], candidates, ballot, Some(id)) == Admit(|tokens|)
  {
    var after := tokens + [Issued(id, now)];
    assert FindToken(after, id) == Some(|tokens|) by {
      assert forall i :: 0 <= i < |tokens| ==> after[i] == tokens[i];
      assert after[|tokens|].id == id;
    }
    assert FirstUnknown(ballot, candidates) == None;
    ElementsCardinality(ballot);
  }

  /** In a valid ledger each token id backs at most one vote: exactly one if
      the token is used, none otherwise. */
  lemma AtMostOneVotePerToken(candidates: seq<string>, l: Ledger, id: string)
    requires LedgerValid(candidates, l)
    ensures VotesFor(l.votes, id) <= 1
    ensures VotesFor(l.votes, id) == (if id in UsedIds(l.tokens) then 1 else 0)
  {
    VotesForDistinct(l.votes, id);
  }

  /** Counting votes for an id when vote tokens are pairwise different. */
  lemma {:induction false} VotesForDistinct(votes: seq<Vote>, id: string)
    requires forall j1, j2 :: 0 <= j1 < j2 < |votes| ==> votes[j1].token != votes[j2].token
    ensures VotesFor(votes, id) == (if id in VoteTokens(votes) then 1 else 0)
  {
    if votes != [] {
      var n := |votes| - 1;
      var prefix := votes[..n];
      VotesForDistinct(prefix, id);
      VoteTokensAppend(prefix, votes[n]);
      assert prefix + [votes[n]] == votes;
      if votes[n].token == id {
        forall j | 0 <= j < n ensures prefix[j].token != id {
          assert prefix[j] == votes[j];
        }
      }
    }
  }
}
