/**
 * The records the voting server keeps in its two data files, and the
 * sequence facts shared by ballot validation and tabulation.
 */
module Records {
  import opened Wrappers

  /** Ballot length and winner cap: the server uses the literal 14 for both. */
  const K: nat := 14

  /** An entry of tokens.json. `usedAt` is absent until the token is redeemed. */
  datatype Token = Token(id: string, used: bool, createdAt: int, usedAt: Option<int>)

  /** An entry of votes.json: the ranking, the time it was recorded and the token that paid for it. */
  datatype Vote = Vote(ballot: seq<string>, timestamp: int, token: string)

  /** No name occurs twice. */
  predicate Distinct(s: seq<string>)
  {
    forall i, j :: 0 <= i < j < |s| ==> s[i] != s[j]
  }

  /** The set of names occurring in `s` (what `new Set(s)` holds). */
  function Elements(s: seq<string>): (r: set<string>)
    ensures forall x :: x in r <==> x in s
  {
    if s == [] then {} else {s[0]} + Elements(s[1..])
  }

  /** A sequence is repetition-free exactly when its head is not in its tail
      and its tail is repetition-free. */
  lemma DistinctUncons(s: seq<string>)
    requires s != []
    ensures Distinct(s) <==> s[0] !in s[1..] && Distinct(s[1..])
  {
    var t := s[1..];
    if Distinct(s) {
      forall i, j | 0 <= i < j < |t| ensures t[i] != t[j] {
        assert t[i] == s[i + 1] && t[j] == s[j + 1];
      }
    }
    if s[0] !in t && Distinct(t) {
      forall i, j | 0 <= i < j < |s| ensures s[i] != s[j] {
        if i == 0 {
          assert s[j] == t[j - 1];
        } else {
          assert s[i] == t[i - 1] && s[j] == t[j - 1];
        }
      }
    }
  }

  /** The set built from a sequence has as many members as the sequence has
      elements exactly when no element repeats (the duplicate test of the
      vote handler). */
  lemma {:induction false} ElementsCardinality(s: seq<string>)
    ensures |Elements(s)| <= |s|
    ensures |Elements(s)| == |s| <==> Distinct(s)
  {
    if s != [] {
      var t := s[1..];
      ElementsCardinality(t);
      DistinctUncons(s);
      if s[0] in t {
        assert Elements(s) == Elements(t);
      } else {
        assert |Elements(s)| == 1 + |Elements(t)|;
      }
    }
  }

  /** Appending a new name keeps a sequence repetition-free. */
  lemma DistinctSnoc(s: seq<string>, x: string)
    requires Distinct(s) && x !in s
    ensures Distinct(s + [x])
  {
    var t := s + [x];
    forall i, j | 0 <= i < j < |t| ensures t[i] != t[j] {
      if j < |s| {
        assert t[i] == s[i] && t[j] == s[j];
      } else {
        assert t[i] == s[i];
      }
    }
  }

  /** A slice grows by its next element. */
  lemma SliceSnoc(s: seq<string>, m: nat, k: nat)
    requires m < k <= |s|
    ensures s[m..k - 1] + [s[k - 1]] == s[m..k]
  {
  }

  /** Every entry of every ballot is a roster name. */
  predicate OnRoster(candidates: seq<string>, votes: seq<Vote>)
  {
    forall j, k :: 0 <= j < |votes| && 0 <= k < |votes[j].ballot| ==> votes[j].ballot[k] in candidates
  }
}
