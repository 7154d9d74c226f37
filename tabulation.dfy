/**
 * The results computation (`GET /api/admin/results`): repeatedly tally each
 * ballot's first still-active choice, elect the first maximum, eliminate the
 * first minimum unless it is the one just elected, until 14 are elected or
 * every candidate has been elected or eliminated.
 */
module Tabulation {
  import opened Wrappers
  import opened Records

  /** A candidate neither elected nor eliminated yet. */
  predicate IsActive(c: string, elected: seq<string>, eliminated: seq<string>)
  {
    c !in elected && c !in eliminated
  }

  /** The active candidates in roster order (the keys of the tally object). */
  function ActiveList(candidates: seq<string>, elected: seq<string>, eliminated: seq<string>): seq<string>
  {
    if candidates == [] then []
    else
      var rest := ActiveList(candidates[..|candidates| - 1], elected, eliminated);
      var c := candidates[|candidates| - 1];
      if IsActive(c, elected, eliminated) then rest + [c] else rest
  }

  /** The active list holds exactly the roster names still active. */
  lemma {:induction false} ActiveListMembers(candidates: seq<string>, elected: seq<string>, eliminated: seq<string>)
    ensures forall c :: c in ActiveList(candidates, elected, eliminated) <==>
                        c in candidates && IsActive(c, elected, eliminated)
  {
    if candidates != [] {
      var prefix := candidates[..|candidates| - 1];
      ActiveListMembers(prefix, elected, eliminated);
      assert candidates == prefix + [candidates[|candidates| - 1]];
    }
  }

  /** With distinct roster names the active list repeats no name. */
  lemma {:induction false} ActiveListDistinct(candidates: seq<string>, elected: seq<string>, eliminated: seq<string>)
    requires Distinct(candidates)
    ensures Distinct(ActiveList(candidates, elected, eliminated))
  {
    if candidates != [] {
      var prefix := candidates[..|candidates| - 1];
      ActiveListDistinct(prefix, elected, eliminated);
      ActiveListMembers(prefix, elected, eliminated);
      assert candidates[|candidates| - 1] !in prefix;
    }
  }

  /** The first entry of a ballot that is still active, if any. */
  function FirstActive(ballot: seq<string>, elected: seq<string>, eliminated: seq<string>): (r: Option<string>)
    ensures r.Some? ==> r.value in ballot && IsActive(r.value, elected, eliminated)
    ensures r.Some? ==> exists k :: 0 <= k < |ballot| && ballot[k] == r.value &&
                          forall j :: 0 <= j < k ==> !IsActive(ballot[j], elected, eliminated)
    ensures r.None? ==> forall j :: 0 <= j < |ballot| ==> !IsActive(ballot[j], elected, eliminated)
  {
    if ballot == [] then None
    else if IsActive(ballot[0], elected, eliminated) then Some(ballot[0])
    else FirstActive(ballot[1..], elected, eliminated)
  }

  /** Number of ballots whose first active choice is `c`. */
  function Credit(votes: seq<Vote>, c: string, elected: seq<string>, eliminated: seq<string>): (n: nat)
    ensures n <= |votes|
  {
    if votes == [] then 0
    else
      Credit(votes[..|votes| - 1], c, elected, eliminated)
      + (if FirstActive(votes[|votes| - 1].ballot, elected, eliminated) == Some(c) then 1 else 0)
  }

  /** Each of `keys` mapped to its credit over `votes`. */
  function CreditMap(keys: seq<string>, votes: seq<Vote>, elected: seq<string>, eliminated: seq<string>): map<string, nat>
  {
    map c | c in keys :: Credit(votes, c, elected, eliminated)
  }

  /** The tally of a round: every active candidate mapped to its credit. */
  function Tally(candidates: seq<string>, votes: seq<Vote>, elected: seq<string>, eliminated: seq<string>): (t: map<string, nat>)
    ensures forall c :: c in t <==> c in candidates && IsActive(c, elected, eliminated)
  {
    ActiveListMembers(candidates, elected, eliminated);
    CreditMap(ActiveList(candidates, elected, eliminated), votes, elected, eliminated)
  }

  /** One `[name, count]` pair of `Object.entries(tally)`. */
  datatype Entry = Entry(name: string, count: nat)

  /** The tally's entries in key order. */
  function Entries(keys: seq<string>, tally: map<string, nat>): seq<Entry>
    requires forall c :: c in keys ==> c in tally
  {
    seq(|keys|, i requires 0 <= i < |keys| => Entry(keys[i], tally[keys[i]]))
  }

  /** Position kept by `reduce((a, b) => a[1] >= b[1] ? a : b)`: the first maximum. */
  function TopIndex(e: seq<Entry>): (i: nat)
    requires |e| > 0
    ensures i < |e|
    ensures forall j :: 0 <= j < |e| ==> e[j].count <= e[i].count
    ensures forall j :: 0 <= j < i ==> e[j].count < e[i].count
  {
    if |e| == 1 then 0
    else
      var a := TopIndex(e[..|e| - 1]);
      if e[a].count >= e[|e| - 1].count then a else |e| - 1
  }

  /** Position kept by `reduce((a, b) => a[1] <= b[1] ? a : b)`: the first minimum. */
  function BottomIndex(e: seq<Entry>): (i: nat)
    requires |e| > 0
    ensures i < |e|
    ensures forall j :: 0 <= j < |e| ==> e[i].count <= e[j].count
    ensures forall j :: 0 <= j < i ==> e[i].count < e[j].count
  {
    if |e| == 1 then 0
    else
      var a := BottomIndex(e[..|e| - 1]);
      if e[a].count <= e[|e| - 1].count then a else |e| - 1
  }

  /** Elected and eliminated candidates so far, in the order they were pushed. */
  datatype Progress = Progress(elected: seq<string>, eliminated: seq<string>)

  /** One round's update from its entries: push `top` onto elected and
      `bottom` onto eliminated unless it is `top`. */
  function Round(p: Progress, e: seq<Entry>): (r: Progress)
    requires |e| > 0
    requires forall i :: 0 <= i < |e| ==> IsActive(e[i].name, p.elected, p.eliminated)
    ensures |r.elected| == |p.elected| + 1
    ensures p.elected <= r.elected
  {
    var t := TopIndex(e);
    var top := e[t].name;
    assert IsActive(top, p.elected, p.eliminated);
    var bottom := e[BottomIndex(e)].name;
    var elected := if top !in p.elected then p.elected + [top] else p.elected;
    var eliminated := if bottom !in p.eliminated && bottom != top then p.eliminated + [bottom] else p.eliminated;
    Progress(elected, eliminated)
  }

  /** The loop condition of the results handler. */
  predicate Continues(candidates: seq<string>, p: Progress)
  {
    |p.elected| < K && |p.elected| + |p.eliminated| < |candidates|
  }

  /** The entries of the tally for the current progress. */
  function Standings(candidates: seq<string>, votes: seq<Vote>, p: Progress): (e: seq<Entry>)
    ensures |e| == |ActiveList(candidates, p.elected, p.eliminated)|
    ensures forall i :: 0 <= i < |e| ==> e[i].name == ActiveList(candidates, p.elected, p.eliminated)[i]
    ensures forall i :: 0 <= i < |e| ==> e[i].name in candidates && IsActive(e[i].name, p.elected, p.eliminated)
    ensures forall i :: 0 <= i < |e| ==> e[i].name in Tally(candidates, votes, p.elected, p.eliminated) &&
                                         e[i].count == Tally(candidates, votes, p.elected, p.eliminated)[e[i].name]
  {
    var keys := ActiveList(candidates, p.elected, p.eliminated);
    ActiveListMembers(candidates, p.elected, p.eliminated);
    assert forall i :: 0 <= i < |keys| ==> keys[i] in keys;
    Entries(keys, Tally(candidates, votes, p.elected, p.eliminated))
  }

  /** The rounds from `p` on; the elected sequence when the loop stops. */
  function Run(candidates: seq<string>, votes: seq<Vote>, p: Progress): (r: seq<string>)
    ensures p.elected <= r
    decreases K - |p.elected|
  {
    if !Continues(candidates, p) then p.elected
    else
      var e := Standings(candidates, votes, p);
      if |e| == 0 then p.elected
      else
        var q := Round(p, e);
        var r := Run(candidates, votes, q);
        PrefixTrans(p.elected, q.elected, r);
        r
  }

  /** Prefixes of prefixes are prefixes. */
  lemma PrefixTrans(a: seq<string>, b: seq<string>, c: seq<string>)
    requires a <= b && b <= c
    ensures a <= c
  {
    assert c[..|b|][..|a|] == c[..|a|];
  }

  function Min(a: nat, b: nat): nat
  {
    if a <= b then a else b
  }

  /** The winners: the elected sequence, cut to at most 14 (`elected.slice(0, 14)`). */
  function Tabulate(candidates: seq<string>, votes: seq<Vote>): (r: seq<string>)
    ensures |r| <= K && r <= Run(candidates, votes, Progress([], []))
  {
    var elected := Run(candidates, votes, Progress([], []));
    elected[..Min(K, |elected|)]
  }

  /** Extending the roster prefix by one candidate extends its active list by
      that candidate exactly when it is active. */
  lemma ActiveListSnoc(candidates: seq<string>, i: nat, elected: seq<string>, eliminated: seq<string>)
    requires i < |candidates|
    ensures ActiveList(candidates[..i + 1], elected, eliminated) ==
            ActiveList(candidates[..i], elected, eliminated)
            + (if IsActive(candidates[i], elected, eliminated) then [candidates[i]] else [])
  {
    assert candidates[..i + 1][..i] == candidates[..i];
  }

  /** Adding a key to the tally before any ballot is counted starts it at 0. */
  lemma ZeroStep(keys: seq<string>, c: string, elected: seq<string>, eliminated: seq<string>)
    ensures CreditMap(keys, [], elected, eliminated)[c := 0] == CreditMap(keys + [c], [], elected, eliminated)
  {
  }

  /** A ballot's first active choice, if any, is one of `keys`. */
  predicate FirstActiveIn(keys: seq<string>, ballot: seq<string>, elected: seq<string>, eliminated: seq<string>)
  {
    var choice := FirstActive(ballot, elected, eliminated);
    choice.Some? ==> choice.value in keys
  }

  /** Counting one more ballot credits its first active choice and no one else. */
  lemma TallyStep(keys: seq<string>, tally: map<string, nat>, votes: seq<Vote>, j: nat,
                  elected: seq<string>, eliminated: seq<string>, choice: Option<string>)
    requires j < |votes| && choice == FirstActive(votes[j].ballot, elected, eliminated)
    requires tally == CreditMap(keys, votes[..j], elected, eliminated)
    requires choice.Some? ==> choice.value in keys
    ensures choice.None? ==> tally == CreditMap(keys, votes[..j + 1], elected, eliminated)
    ensures choice.Some? ==> tally[choice.value := tally[choice.value] + 1] ==
                             CreditMap(keys, votes[..j + 1], elected, eliminated)
  {
    assert votes[..j + 1][..j] == votes[..j];
    assert votes[..j + 1][j] == votes[j];
  }

  /** With every ballot entry on the roster, a ballot's first active choice is
      a key of the tally. */
  lemma FirstActiveIsKey(candidates: seq<string>, votes: seq<Vote>, j: nat, elected: seq<string>, eliminated: seq<string>)
    requires OnRoster(candidates, votes) && j < |votes|
    ensures var choice := FirstActive(votes[j].ballot, elected, eliminated);
            choice.Some? ==> choice.value in ActiveList(candidates, elected, eliminated)
  {
    var choice := FirstActive(votes[j].ballot, elected, eliminated);
    if choice.Some? {
      var k :| 0 <= k < |votes[j].ballot| && votes[j].ballot[k] == choice.value;
      ActiveListMembers(candidates, elected, eliminated);
    }
  }

  /** The ballot loop of `countFirstChoices`: scan the ranking and stop at the
      first choice neither elected nor eliminated. */
  method FirstActiveChoice(ballot: seq<string>, elected: seq<string>, eliminated: seq<string>)
    returns (choice: Option<string>)
    ensures choice == FirstActive(ballot, elected, eliminated)
  {
    var k := 0;
    while k < |ballot|
      invariant 0 <= k <= |ballot|
      invariant FirstActive(ballot[k..], elected, eliminated) == FirstActive(ballot, elected, eliminated)
    {
      if ballot[k] !in elected && ballot[k] !in eliminated {
        assert ballot[k..][0] == ballot[k];
        return Some(ballot[k]);
      }
      assert ballot[k..][1..] == ballot[k + 1..];
      k := k + 1;
    }
    return None;
  }

  /** The roster loop of `countFirstChoices`: every active candidate starts
      at 0, keys in roster order. */
  method ZeroTally(candidates: seq<string>, elected: seq<string>, eliminated: seq<string>)
    returns (keys: seq<string>, tally: map<string, nat>)
    ensures keys == ActiveList(candidates, elected, eliminated)
    ensures tally == CreditMap(keys, [], elected, eliminated)
  {
    keys, tally := [], map[];
    var i := 0;
    while i < |candidates|
      invariant 0 <= i <= |candidates|
      invariant keys == ActiveList(candidates[..i], elected, eliminated)
      invariant tally == CreditMap(keys, [], elected, eliminated)
    {
      var c := candidates[i];
      ActiveListSnoc(candidates, i, elected, eliminated);
      if c !in elected && c !in eliminated {
        ZeroStep(keys, c, elected, eliminated);
        keys := keys + [c];
        tally := tally[c := 0];
      }
      i := i + 1;
    }
    assert candidates[..i] == candidates;
  }

  /** The ballot loop of `countFirstChoices`: credit each ballot's first
      active choice, which is always one of `keys`. */
  method CreditBallots(keys: seq<string>, zero: map<string, nat>, votes: seq<Vote>,
                       elected: seq<string>, eliminated: seq<string>)
    returns (tally: map<string, nat>)
    requires zero == CreditMap(keys, [], elected, eliminated)
    requires forall j :: 0 <= j < |votes| ==> FirstActiveIn(keys, votes[j].ballot, elected, eliminated)
    ensures tally == CreditMap(keys, votes, elected, eliminated)
  {
    tally := zero;
    assert votes[..0] == [];
    var j := 0;
    while j < |votes|
      invariant 0 <= j <= |votes|
      invariant tally == CreditMap(keys, votes[..j], elected, eliminated)
    {
      var choice := FirstActiveChoice(votes[j].ballot, elected, eliminated);
      assert FirstActiveIn(keys, votes[j].ballot, elected, eliminated);
      TallyStep(keys, tally, votes, j, elected, eliminated, choice);
      if choice.Some? {
        tally := tally[choice.value := tally[choice.value] + 1];
      }
      j := j + 1;
    }
    assert votes[..j] == votes;
  }

  /** `countFirstChoices`: start every active candidate at 0 in roster order,
      then credit each ballot's first active choice. Names are assumed
      distinct and every ballot entry a roster name, so the tally's keys are
      exactly the active candidates in roster order. */
  method CountFirstChoices(candidates: seq<string>, votes: seq<Vote>, elected: seq<string>, eliminated: seq<string>)
    returns (keys: seq<string>, tally: map<string, nat>)
    requires Distinct(candidates)
    requires OnRoster(candidates, votes)
    ensures keys == ActiveList(candidates, elected, eliminated)
    ensures tally == Tally(candidates, votes, elected, eliminated)
  {
    var zero;
    keys, zero := ZeroTally(candidates, elected, eliminated);
    forall j | 0 <= j < |votes| ensures FirstActiveIn(keys, votes[j].ballot, elected, eliminated) {
      FirstActiveIsKey(candidates, votes, j, elected, eliminated);
    }
    tally := CreditBallots(keys, zero, votes, elected, eliminated);
  }

  /** The results handler's loop; the winners are the first 14 elected. */
  method ComputeWinners(candidates: seq<string>, votes: seq<Vote>) returns (winners: seq<string>)
    requires Distinct(candidates)
    requires OnRoster(candidates, votes)
    ensures winners == Tabulate(candidates, votes)
  {
    var elected: seq<string> := [];
    var eliminated: seq<string> := [];
    while |elected| < K && |elected| + |eliminated| < |candidates|
      invariant Run(candidates, votes, Progress(elected, eliminated)) == Run(candidates, votes, Progress([], []))
      decreases K - |elected|
    {
      var keys, tally := CountFirstChoices(candidates, votes, elected, eliminated);
      var entries := Entries(keys, tally);
      if |entries| == 0 {
        break;
      }
      var top := entries[TopIndex(entries)];
      var bottom := entries[BottomIndex(entries)];
      assert Round(Progress(elected, eliminated), entries).elected == elected + [top.name];
      if top.name !in elected {
        elected := elected + [top.name];
      }
      if bottom.name !in eliminated && bottom.name != top.name {
        eliminated := eliminated + [bottom.name];
      }
    }
    winners := elected[..Min(K, |elected|)];
  }

  /** Elected and eliminated hold no repeats, share no name, and hold only roster names. */
  ghost predicate Consistent(candidates: seq<string>, p: Progress)
  {
    && Distinct(p.elected)
    && Distinct(p.eliminated)
    && (forall c :: c in p.elected ==> c in candidates && c !in p.eliminated)
    && (forall c :: c in p.eliminated ==> c in candidates)
  }

  /** What one round does: it elects the active candidate with the largest
      tally, the earliest in roster order among equals, and it eliminates the
      earliest active candidate with the smallest tally (chosen among all
      active candidates, the one just elected included) unless that is the
      one just elected. */
  lemma RoundOutcome(candidates: seq<string>, votes: seq<Vote>, p: Progress) returns (top: nat, bottom: nat)
    requires ActiveList(candidates, p.elected, p.eliminated) != []
    ensures var keys := ActiveList(candidates, p.elected, p.eliminated);
            var tally := Tally(candidates, votes, p.elected, p.eliminated);
            var r := Round(p, Standings(candidates, votes, p));
            && top < |keys| && bottom < |keys|
            && r.elected == p.elected + [keys[top]]
            && (forall j :: 0 <= j < |keys| ==> tally[keys[j]] <= tally[keys[top]])
            && (forall j :: 0 <= j < top ==> tally[keys[j]] < tally[keys[top]])
            && (forall j :: 0 <= j < |keys| ==> tally[keys[bottom]] <= tally[keys[j]])
            && (forall j :: 0 <= j < bottom ==> tally[keys[bottom]] < tally[keys[j]])
            && r.eliminated == (if keys[bottom] == keys[top] then p.eliminated else p.eliminated + [keys[bottom]])
  {
    var keys := ActiveList(candidates, p.elected, p.eliminated);
    var tally := Tally(candidates, votes, p.elected, p.eliminated);
    var e := Standings(candidates, votes, p);
    assert e == Entries(keys, tally);
    assert forall j :: 0 <= j < |e| ==> e[j] == Entry(keys[j], tally[keys[j]]);
    top := TopIndex(e);
    bottom := BottomIndex(e);
    assert keys[top] in keys;
  }

  /** A round keeps elected and eliminated repetition-free, disjoint and on the roster. */
  lemma RoundPreservesConsistent(candidates: seq<string>, votes: seq<Vote>, p: Progress)
    requires Consistent(candidates, p)
    requires ActiveList(candidates, p.elected, p.eliminated) != []
    ensures Consistent(candidates, Round(p, Standings(candidates, votes, p)))
  {
    var keys := ActiveList(candidates, p.elected, p.eliminated);
    var top, bottom := RoundOutcome(candidates, votes, p);
    ActiveListMembers(candidates, p.elected, p.eliminated);
    var t, b := keys[top], keys[bottom];
    assert t in keys && b in keys;
    assert t in candidates && IsActive(t, p.elected, p.eliminated);
    assert b in candidates && IsActive(b, p.elected, p.eliminated);
    var r := Round(p, Standings(candidates, votes, p));
    assert r.elected == p.elected + [t];
    DistinctSnoc(p.elected, t);
    if b != t {
      assert r.eliminated == p.eliminated + [b];
      DistinctSnoc(p.eliminated, b);
    } else {
      assert r.eliminated == p.eliminated;
    }
  }

  /** Every sequence of rounds from a consistent state elects distinct roster names. */
  lemma {:induction false} RunConsistent(candidates: seq<string>, votes: seq<Vote>, p: Progress)
    requires Consistent(candidates, p)
    ensures Distinct(Run(candidates, votes, p))
    ensures forall c :: c in Run(candidates, votes, p) ==> c in candidates
    decreases K - |p.elected|
  {
    if Continues(candidates, p) && ActiveList(candidates, p.elected, p.eliminated) != [] {
      RoundPreservesConsistent(candidates, votes, p);
      RunConsistent(candidates, votes, Round(p, Standings(candidates, votes, p)));
    }
  }

  /** The loop never elects more than 14 candidates, nor more than there are. */
  lemma {:induction false} RunBounds(candidates: seq<string>, votes: seq<Vote>, p: Progress)
    requires |p.elected| <= K && |p.elected| <= |candidates|
    ensures |Run(candidates, votes, p)| <= K
    ensures |Run(candidates, votes, p)| <= |candidates|
    decreases K - |p.elected|
  {
    if Continues(candidates, p) && ActiveList(candidates, p.elected, p.eliminated) != [] {
      RunBounds(candidates, votes, Round(p, Standings(candidates, votes, p)));
    }
  }

  /** The winners: at most 14, at most one per roster name, no repeats, all on
      the roster, and the cut to 14 never removes anyone. */
  lemma TabulateShape(candidates: seq<string>, votes: seq<Vote>)
    ensures Tabulate(candidates, votes) == Run(candidates, votes, Progress([], []))
    ensures |Tabulate(candidates, votes)| <= K
    ensures |Tabulate(candidates, votes)| <= |candidates|
    ensures Distinct(Tabulate(candidates, votes))
    ensures forall c :: c in Tabulate(candidates, votes) ==> c in candidates
  {
    RunBounds(candidates, votes, Progress([], []));
    RunConsistent(candidates, votes, Progress([], []));
  }

  /** An empty roster gives no winners. */
  lemma EmptyRoster(votes: seq<Vote>)
    ensures Tabulate([], votes) == []
  {
  }

  /** Number of `keys` equal to the given choice. */
  function Hits(keys: seq<string>, choice: Option<string>): (n: nat)
    ensures choice.None? || choice.value !in keys ==> n == 0
  {
    if keys == [] then 0
    else Hits(keys[..|keys| - 1], choice) + (if choice == Some(keys[|keys| - 1]) then 1 else 0)
  }

  /** A ballot credits at most one of a list of distinct names. */
  lemma {:induction false} HitsAtMostOne(keys: seq<string>, choice: Option<string>)
    requires Distinct(keys)
    ensures Hits(keys, choice) <= 1
  {
    if keys != [] {
      var prefix := keys[..|keys| - 1];
      HitsAtMostOne(prefix, choice);
      assert keys[|keys| - 1] !in prefix;
    }
  }

  /** Sum of the credits of `keys`. */
  function CreditSum(keys: seq<string>, votes: seq<Vote>, elected: seq<string>, eliminated: seq<string>): nat
  {
    if keys == [] then 0
    else CreditSum(keys[..|keys| - 1], votes, elected, eliminated) + Credit(votes, keys[|keys| - 1], elected, eliminated)
  }

  /** Counting the last ballot adds to the credit sum the number of keys it credits. */
  lemma {:induction false} CreditSumStep(keys: seq<string>, votes: seq<Vote>, elected: seq<string>, eliminated: seq<string>)
    requires votes != []
    ensures CreditSum(keys, votes, elected, eliminated) ==
            CreditSum(keys, votes[..|votes| - 1], elected, eliminated)
            + Hits(keys, FirstActive(votes[|votes| - 1].ballot, elected, eliminated))
  {
    if keys != [] {
      CreditSumStep(keys[..|keys| - 1], votes, elected, eliminated);
    }
  }

  /** Over distinct names, the credits add up to at most the number of ballots. */
  lemma {:induction false} CreditSumBound(keys: seq<string>, votes: seq<Vote>, elected: seq<string>, eliminated: seq<string>)
    requires Distinct(keys)
    ensures CreditSum(keys, votes, elected, eliminated) <= |votes|
  {
    if votes == [] {
      CreditSumEmpty(keys, elected, eliminated);
    } else {
      CreditSumBound(keys, votes[..|votes| - 1], elected, eliminated);
      CreditSumStep(keys, votes, elected, eliminated);
      HitsAtMostOne(keys, FirstActive(votes[|votes| - 1].ballot, elected, eliminated));
    }
  }

  /** With no ballots every credit is 0. */
  lemma {:induction false} CreditSumEmpty(keys: seq<string>, elected: seq<string>, eliminated: seq<string>)
    ensures CreditSum(keys, [], elected, eliminated) == 0
  {
    if keys != [] {
      CreditSumEmpty(keys[..|keys| - 1], elected, eliminated);
    }
  }

  /** Sum of a tally's counts over `keys`. */
  function TallyTotal(keys: seq<string>, tally: map<string, nat>): nat
    requires forall c :: c in keys ==> c in tally
  {
    if keys == [] then 0 else TallyTotal(keys[..|keys| - 1], tally) + tally[keys[|keys| - 1]]
  }

  /** Summing a credit map over some of its keys is summing the credits. */
  lemma {:induction false} TallyTotalIsCreditSum(keys: seq<string>, all: seq<string>, votes: seq<Vote>,
                                                 elected: seq<string>, eliminated: seq<string>)
    requires forall c :: c in keys ==> c in all
    ensures TallyTotal(keys, CreditMap(all, votes, elected, eliminated)) == CreditSum(keys, votes, elected, eliminated)
  {
    if keys != [] {
      TallyTotalIsCreditSum(keys[..|keys| - 1], all, votes, elected, eliminated);
    }
  }

  /** Each ballot adds 1 to at most one count, so a round's counts add up to
      at most the number of ballots. */
  lemma TallyTotalBound(candidates: seq<string>, votes: seq<Vote>, elected: seq<string>, eliminated: seq<string>)
    requires Distinct(candidates)
    ensures TallyTotal(ActiveList(candidates, elected, eliminated), Tally(candidates, votes, elected, eliminated)) <= |votes|
  {
    var keys := ActiveList(candidates, elected, eliminated);
    ActiveListDistinct(candidates, elected, eliminated);
    TallyTotalIsCreditSum(keys, keys, votes, elected, eliminated);
    CreditSumBound(keys, votes, elected, eliminated);
  }

  /** A roster part with no active name has an empty active list. */
  lemma {:induction false} ActiveListNone(candidates: seq<string>, elected: seq<string>, eliminated: seq<string>)
    requires forall i :: 0 <= i < |candidates| ==> !IsActive(candidates[i], elected, eliminated)
    ensures ActiveList(candidates, elected, eliminated) == []
  {
    if candidates != [] {
      ActiveListNone(candidates[..|candidates| - 1], elected, eliminated);
    }
  }

  /** In a distinct sequence a name after position `m` is not among the first `m`. */
  lemma LaterNotInPrefix(s: seq<string>, m: nat, j: nat)
    requires Distinct(s) && m <= j < |s|
    ensures s[j] !in s[..m]
  {
    forall i | 0 <= i < m ensures s[..m][i] != s[j] {
      assert s[..m][i] == s[i];
    }
  }

  /** With the first `m` roster names elected and none eliminated, the active
      list is the rest of the roster. */
  lemma {:induction false} ActiveSuffix(candidates: seq<string>, m: nat, k: nat)
    requires Distinct(candidates) && m <= k <= |candidates|
    ensures ActiveList(candidates[..k], candidates[..m], []) == candidates[m..k]
    decreases k
  {
    if k == m {
      ActiveSuffixEmpty(candidates, m);
    } else {
      ActiveSuffix(candidates, m, k - 1);
      LaterNotInPrefix(candidates, m, k - 1);
      ActiveSuffixStep(candidates, m, k);
    }
  }

  /** Base case of `ActiveSuffix`: nothing after the elected prefix yet. */
  lemma ActiveSuffixEmpty(candidates: seq<string>, m: nat)
    requires m <= |candidates|
    ensures ActiveList(candidates[..m], candidates[..m], []) == candidates[m..m]
  {
    var prefix := candidates[..m];
    forall i | 0 <= i < |prefix| ensures !IsActive(prefix[i], prefix, []) {
      assert prefix[i] in prefix;
    }
    ActiveListNone(prefix, prefix, []);
  }

  /** Step of `ActiveSuffix`: one more roster name, not among the elected prefix. */
  lemma ActiveSuffixStep(candidates: seq<string>, m: nat, k: nat)
    requires m < k <= |candidates|
    requires ActiveList(candidates[..k - 1], candidates[..m], []) == candidates[m..k - 1]
    requires candidates[k - 1] !in candidates[..m]
    ensures ActiveList(candidates[..k], candidates[..m], []) == candidates[m..k]
  {
    ActiveListSnoc(candidates, k - 1, candidates[..m], []);
    assert IsActive(candidates[k - 1], candidates[..m], []);
    SliceSnoc(candidates, m, k);
  }

  /** When all counts are equal both folds keep the first entry. */
  lemma FoldsOfEqualCounts(e: seq<Entry>)
    requires |e| > 0
    requires forall i :: 0 <= i < |e| ==> e[i].count == e[0].count
    ensures TopIndex(e) == 0 && BottomIndex(e) == 0
  {
    var t := TopIndex(e);
    if t > 0 {
      assert false;
    }
    var b := BottomIndex(e);
    if b > 0 {
      assert false;
    }
  }

  /** Without ballots every count is 0. */
  lemma StandingsWithoutVotes(candidates: seq<string>, p: Progress)
    ensures forall i :: 0 <= i < |Standings(candidates, [], p)| ==> Standings(candidates, [], p)[i].count == 0
  {
  }

  /** Without ballots every round elects the first active name and eliminates
      no one, so the rounds from a roster prefix elect the roster prefix of
      length min(14, roster size). */
  lemma {:induction false} RunNoVotes(candidates: seq<string>, m: nat)
    requires Distinct(candidates) && m <= Min(K, |candidates|)
    ensures Run(candidates, [], Progress(candidates[..m], [])) == candidates[..Min(K, |candidates|)]
    decreases K - m
  {
    var p := Progress(candidates[..m], []);
    if Continues(candidates, p) {
      RoundNoVotes(candidates, m);
      RunNoVotes(candidates, m + 1);
    }
  }

  /** One round without ballots elects roster name `m` after the first `m`. */
  lemma RoundNoVotes(candidates: seq<string>, m: nat)
    requires Distinct(candidates) && m < |candidates|
    ensures |Standings(candidates, [], Progress(candidates[..m], []))| > 0
    ensures Round(Progress(candidates[..m], []), Standings(candidates, [], Progress(candidates[..m], []))) ==
            Progress(candidates[..m + 1], [])
  {
    var p := Progress(candidates[..m], []);
    ActiveSuffix(candidates, m, |candidates|);
    assert candidates[..|candidates|] == candidates;
    var e := Standings(candidates, [], p);
    assert |e| > 0;
    StandingsWithoutVotes(candidates, p);
    FoldsOfEqualCounts(e);
    assert e[0].name == candidates[m];
    LaterNotInPrefix(candidates, m, m);
    SliceSnoc(candidates, 0, m + 1);
  }

  /** With no ballots the winners are the first min(14, roster size) roster names. */
  lemma NoVotesElectsRosterPrefix(candidates: seq<string>)
    requires Distinct(candidates)
    ensures Tabulate(candidates, []) == candidates[..Min(K, |candidates|)]
  {
    assert candidates[..0] == [];
    RunNoVotes(candidates, 0);
  }

  /** Credits over three ballots, one ballot at a time. */
  lemma CreditOfThree(v1: Vote, v2: Vote, v3: Vote, c: string, elected: seq<string>, eliminated: seq<string>)
    ensures Credit([v1, v2, v3], c, elected, eliminated) ==
            (if FirstActive(v1.ballot, elected, eliminated) == Some(c) then 1 else 0)
            + (if FirstActive(v2.ballot, elected, eliminated) == Some(c) then 1 else 0)
            + (if FirstActive(v3.ballot, elected, eliminated) == Some(c) then 1 else 0)
  {
    assert [v1, v2, v3][..2] == [v1, v2];
    assert [v1, v2][..1] == [v1];
    assert [v1][..0] == [];
    assert Credit([v1], c, elected, eliminated) ==
           (if FirstActive(v1.ballot, elected, eliminated) == Some(c) then 1 else 0);
    assert Credit([v1, v2], c, elected, eliminated) ==
           Credit([v1], c, elected, eliminated)
           + (if FirstActive(v2.ballot, elected, eliminated) == Some(c) then 1 else 0);
  }

  /** The active list of a three-name roster, name by name. */
  lemma ActiveListOfThree(a: string, b: string, c: string, elected: seq<string>, eliminated: seq<string>)
    ensures ActiveList([a, b, c], elected, eliminated) ==
            (if IsActive(a, elected, eliminated) then [a] else [])
            + (if IsActive(b, elected, eliminated) then [b] else [])
            + (if IsActive(c, elected, eliminated) then [c] else [])
  {
    var s := [a, b, c];
    ActiveListSnoc(s, 0, elected, eliminated);
    ActiveListSnoc(s, 1, elected, eliminated);
    ActiveListSnoc(s, 2, elected, eliminated);
    assert s[..0] == [] && s[..3] == s;
  }

  /** The three ballots of the worked example. */
  function ExampleVotes(): seq<Vote>
  {
    [Vote(["A", "B"], 0, "t1"), Vote(["B", "A"], 0, "t2"), Vote(["A", "C"], 0, "t3")]
  }

  /** The entries of a three-key tally, key by key. */
  lemma EntriesOfThree(a: string, b: string, c: string, tally: map<string, nat>)
    requires a in tally && b in tally && c in tally
    ensures Entries([a, b, c], tally) == [Entry(a, tally[a]), Entry(b, tally[b]), Entry(c, tally[c])]
  {
  }

  /** First-choice credits of round one of the worked example. */
  lemma ExampleCreditsOne()
    ensures Credit(ExampleVotes(), "A", [], []) == 2
    ensures Credit(ExampleVotes(), "B", [], []) == 1
    ensures Credit(ExampleVotes(), "C", [], []) == 0
  {
    var vs := ExampleVotes();
    assert FirstActive(["A", "B"], [], []) == Some("A");
    assert FirstActive(["B", "A"], [], []) == Some("B");
    assert FirstActive(["A", "C"], [], []) == Some("A");
    CreditOfThree(vs[0], vs[1], vs[2], "A", [], []);
    CreditOfThree(vs[0], vs[1], vs[2], "B", [], []);
    CreditOfThree(vs[0], vs[1], vs[2], "C", [], []);
  }

  /** Round one of the worked example: A 2, B 1, C 0. */
  lemma ExampleTallyOne()
    ensures Standings(["A", "B", "C"], ExampleVotes(), Progress([], [])) ==
            [Entry("A", 2), Entry("B", 1), Entry("C", 0)]
  {
    ActiveListOfThree("A", "B", "C", [], []);
    var keys := ActiveList(["A", "B", "C"], [], []);
    assert keys == ["A", "B", "C"];
    ExampleCreditsOne();
    var tally := Tally(["A", "B", "C"], ExampleVotes(), [], []);
    assert tally == CreditMap(["A", "B", "C"], ExampleVotes(), [], []);
    EntriesOfThree("A", "B", "C", tally);
  }

  /** Round one of the worked example elects A and eliminates C. */
  lemma ExampleRoundOne()
    ensures Round(Progress([], []), Standings(["A", "B", "C"], ExampleVotes(), Progress([], []))) ==
            Progress(["A"], ["C"])
  {
    ExampleTallyOne();
    var e := [Entry("A", 2), Entry("B", 1), Entry("C", 0)];
    assert TopIndex(e) == 0;
    assert BottomIndex(e) == 2;
  }

  /** First-choice credit of B in round two of the worked example. */
  lemma ExampleCreditTwo()
    ensures Credit(ExampleVotes(), "B", ["A"], ["C"]) == 2
  {
    var vs := ExampleVotes();
    assert FirstActive(["A", "B"], ["A"], ["C"]) == Some("B");
    assert FirstActive(["B", "A"], ["A"], ["C"]) == Some("B");
    assert FirstActive(["A", "C"], ["A"], ["C"]) == None;
    CreditOfThree(vs[0], vs[1], vs[2], "B", ["A"], ["C"]);
  }

  /** Round two of the worked example: only B is active, with 2. */
  lemma ExampleTallyTwo()
    ensures Standings(["A", "B", "C"], ExampleVotes(), Progress(["A"], ["C"])) == [Entry("B", 2)]
  {
    ActiveListOfThree("A", "B", "C", ["A"], ["C"]);
    var keys := ActiveList(["A", "B", "C"], ["A"], ["C"]);
    assert keys == ["B"];
    ExampleCreditTwo();
    var tally := Tally(["A", "B", "C"], ExampleVotes(), ["A"], ["C"]);
    assert tally == CreditMap(["B"], ExampleVotes(), ["A"], ["C"]);
    assert Entries(["B"], tally) == [Entry("B", tally["B"])];
  }

  /** Round two of the worked example elects B and eliminates no one. */
  lemma ExampleRoundTwo()
    ensures Round(Progress(["A"], ["C"]), Standings(["A", "B", "C"], ExampleVotes(), Progress(["A"], ["C"]))) ==
            Progress(["A", "B"], ["C"])
  {
    ExampleTallyTwo();
    assert TopIndex([Entry("B", 2)]) == 0 && BottomIndex([Entry("B", 2)]) == 0;
  }

  /** After round two of the worked example every name is decided. */
  lemma ExampleRunFromTwo()
    ensures Run(["A", "B", "C"], ExampleVotes(), Progress(["A", "B"], ["C"])) == ["A", "B"]
  {
    assert !Continues(["A", "B", "C"], Progress(["A", "B"], ["C"]));
  }

  /** From round two on, the worked example elects A and B. */
  lemma ExampleRunFromOne()
    ensures Run(["A", "B", "C"], ExampleVotes(), Progress(["A"], ["C"])) == ["A", "B"]
  {
    ExampleTallyTwo();
    ExampleRoundTwo();
    ExampleRunFromTwo();
    assert Continues(["A", "B", "C"], Progress(["A"], ["C"]));
  }

  /** Roster [A, B, C] with ballots [A, B], [B, A], [A, C]: round one tallies
      A 2, B 1, C 0, electing A and eliminating C; round two elects B; then
      every name is elected or eliminated and the winners are [A, B]. */
  lemma WorkedExample()
    ensures Tabulate(["A", "B", "C"], ExampleVotes()) == ["A", "B"]
  {
    ExampleTallyOne();
    ExampleRoundOne();
    ExampleRunFromOne();
    assert Continues(["A", "B", "C"], Progress([], []));
    assert Run(["A", "B", "C"], ExampleVotes(), Progress([], [])) == ["A", "B"];
  }
}
