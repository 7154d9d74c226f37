# Ranked voting backend: ballot admission, link issuance and tabulation

This project models the core of the ranked-voting server in `Backend/server.js`.

- **Ballot admission** (`POST /api/vote`): a ballot is accepted only with a single-use voting token. The ballot must rank exactly 14 distinct names from the candidate roster. The token checks run first, in a fixed order: missing, then unknown, then already used. The ballot checks follow: length, then repeats, then the first name off the roster. A success appends the vote and marks the token used.
- **Link issuance** (`POST /api/admin/generate-link`): appends a fresh, unused token.
- **Tabulation** (`GET /api/admin/results`):
  - Each round tallies every active candidate's first choices. An active candidate is one neither elected nor eliminated.
  - The round elects the first maximum in roster order.
  - It eliminates the first minimum, taken over all active candidates, unless that is the candidate just elected.
  - Rounds repeat until 14 are elected or every candidate is decided.

Modules:

- `Wrappers` (`wrappers.dfy`): `Option`.
- `Records` (`records.dfy`): the constant `K = 14`, the token and vote records, and distinctness. The set of a ballot's names is here too; its size is what `new Set(ballot).size` measures.
- `Admission` (`admission.dfy`): the vote handler's checks and commit, and issuance, as functions on the contents of `tokens.json` and `votes.json`. Alongside them, the ledger invariant, its preservation, and the single-use lemmas.
- `Tabulation` (`tabulation.dfy`): the results handler, in two forms.
  - Methods mirror the handler's loops: `countFirstChoices` with its two `forEach` loops and the ballot `for` loop with `break`, and the elect/eliminate `while` loop.
  - Functions (`Tally`, `TopIndex`, `BottomIndex`, `Round`, `Run`, `Tabulate`) specify those methods.
  - Lemmas give the properties of one round and of the result.
- `Server` (`server.dfy`): `class Store`. Its mutable fields hold the contents of `tokens.json` and `votes.json`, and its constant field holds the roster from `candidates.json`. The handlers are methods that update the fields in place. Each method's new state equals the corresponding `Admission`/`Tabulation` function applied to the old state.

Entry order of the tally object is roster order, and every active candidate appears in it. This holds when candidate names are distinct, not integer-like (JavaScript lists integer-like keys first) and not `__proto__` (assigning that key calls the prototype setter and creates no entry). The model assumes such names: `Store.Valid` requires `Distinct(candidates)`, and the other two conditions are listed under "## Left out".

With no ballots, the winners are the first min(14, n) roster names, not an empty list. In every round all counts are 0, and the first active name is both the maximum and the minimum, so it is elected and nobody is eliminated (`Tabulation.NoVotesElectsRosterPrefix`).

The worked example has roster [A, B, C] and ballots [A, B], [B, A], [A, C], and it elects [A, B] (`Tabulation.WorkedExample`). Round one elects A and eliminates C. Round two elects B. Every candidate is then decided, so the loop stops well below the cap of 14.

## Model

| member | source | states |
|---|---|---|
| Records.ElementsCardinality | Backend/server.js:73-74 | the set of a ballot's names is never larger than the ballot, and is as large exactly when no name repeats, so the `Set` size test rejects exactly the ballots with a repeat |
| Admission.FindToken | Backend/server.js:64 | `tokens.find` by id: the first position whose id matches, or none when no token has that id |
| Admission.FirstUnknown | Backend/server.js:75-77 | the first ballot position whose name is not on the roster, with every earlier name on it; none when every name is on the roster |
| Admission.BallotError | Backend/server.js:70-77 | the ballot checks report no error exactly when the ballot has 14 entries, no repeats and only roster names |
| Admission.Screen | Backend/server.js:61-77 | a submission is admitted only with a present token whose entry matches the id and is unused, and a well-formed ballot |
| Admission.Submit | Backend/server.js:58-90 | a rejection leaves tokens and votes unchanged; a success has a present token and a well-formed ballot and appends exactly `{ballot, votedAt, token}` to the votes; the token count and every token id are unchanged either way |
| Admission.TokenChecks | Backend/server.js:61-66 | with unique ids: "missing token" exactly when the token is absent or empty; "invalid" exactly when it is present and no token has that id; "already used" exactly when it is present and the token with that id is used |
| Admission.BallotChecks | Backend/server.js:70-77 | once the token is redeemable: "wrong length" exactly when the length is not 14; "duplicate" exactly when 14 long with a repeat; "unknown candidate" exactly when 14 long and distinct with an off-roster name, and then it names the first such name; admission exactly when the token is redeemable and the ballot well formed |
| Admission.SuccessEffects | Backend/server.js:80-87 | a success appends the one vote and marks used, at `usedAt`, the first token with the submitted id, which was unused; every other token is unchanged |
| Admission.SecondUseRejected | Backend/server.js:66 | after a success, any further submission with the same token is rejected as already used and changes nothing |
| Admission.SubmitPreservesValid | Backend/server.js:58-90 | every submission keeps the ledger invariant: unique ids, well-formed recorded ballots, one vote per token, used tokens exactly those named by votes, a redemption time exactly on used tokens |
| Admission.IssuePreservesValid | Backend/server.js:106-111 | appending an issued token with a fresh id keeps the ledger invariant |
| Admission.IssuedTokenAdmits | Backend/server.js:106-111 | a freshly issued token admits any well-formed ballot and redeems the new entry |
| Admission.AtMostOneVotePerToken | Backend/server.js:80-87 | in a valid ledger each token id backs at most one vote: one if it is used, none otherwise |
| Admission.Missing | Backend/server.js:61 | the `!token` test: no token, or the empty string |
| Admission.Issued | Backend/server.js:109 | the entry issuance appends: the given id, unused, created at the given time, no redemption time |
| Admission.LedgerValid | Backend/server.js:58-114 | the invariant the vote and issuance handlers keep together: unique ids, well-formed recorded ballots, one vote per token, used tokens exactly those named by votes, a redemption time exactly on used tokens (`SubmitPreservesValid`, `IssuePreservesValid`) |
| Records.Elements | Backend/server.js:73 | what `new Set(ballot)` holds: exactly the names that occur in the ballot |
| Tabulation.IsActive | Backend/server.js:142-146 | the test at lines 142 and 146, `!elected.includes(c) && !eliminated.includes(c)`: the name is neither elected nor eliminated |
| Tabulation.Entries | Backend/server.js:157 | `Object.entries(tally)`: one `[name, count]` pair per key, in key order; `Standings` states their names and counts |
| Tabulation.ActiveList | Backend/server.js:141-143 | the keys the roster loop creates, in roster order; `ActiveListMembers` and `ActiveListDistinct` state what they are |
| Tabulation.Credit | Backend/server.js:144-151 | the number of ballots whose first active choice is the given name, never more than the number of ballots |
| Tabulation.Tally | Backend/server.js:139-152 | the tally of a round has a key for exactly the active roster names; its values are the `Credit` counts, as `CountFirstChoices` computes them |
| Tabulation.Continues | Backend/server.js:155 | the loop condition as a count test: fewer than 14 elected, and fewer elected plus eliminated names than roster entries |
| Tabulation.Run | Backend/server.js:155-163 | the rounds of the `while` loop, including the `break` on an empty tally; names once elected are never removed (the elected list only grows) |
| Tabulation.Tabulate | Backend/server.js:165 | `elected.slice(0, 14)`: at most 14 names, a prefix of the elected list |
| Tabulation.ActiveListMembers | Backend/server.js:141-143 | the tally's keys are exactly the roster names neither elected nor eliminated |
| Tabulation.ActiveListDistinct | Backend/server.js:141-143 | with a distinct roster the tally's keys repeat no name |
| Tabulation.FirstActive | Backend/server.js:145-150 | the choice credited for a ballot is the first still-active entry: it sits at a position before which every entry is elected or eliminated; none is credited only when no entry is active |
| Tabulation.FirstActiveChoice | Backend/server.js:145-150 | the ballot loop with `break` credits exactly the first active entry |
| Tabulation.ZeroTally | Backend/server.js:140-143 | the roster loop produces the active names in roster order, each with count 0 |
| Tabulation.TallyStep | Backend/server.js:144-151 | counting one more ballot adds 1 to its first active choice and changes no other count |
| Tabulation.CreditBallots | Backend/server.js:144-151 | the votes loop turns the zero tally into each active name's number of ballots whose first active choice it is |
| Tabulation.CountFirstChoices | Backend/server.js:139-153 | `countFirstChoices` returns the active names in roster order, each mapped to its first-choice count |
| Tabulation.TallyTotalBound | Backend/server.js:139-152 | the counts of a round add up to at most the number of votes |
| Tabulation.TopIndex | Backend/server.js:159 | the `>=` reduce keeps the first maximum: no entry is larger, every earlier entry is smaller |
| Tabulation.BottomIndex | Backend/server.js:160 | the `<=` reduce keeps the first minimum: no entry is smaller, every earlier entry is larger |
| Tabulation.FoldsOfEqualCounts | Backend/server.js:159-160 | when all counts are equal both reduces keep the first entry |
| Tabulation.Standings | Backend/server.js:156-157 | the entries list the tally's keys, in order, each paired with its tally count, and all are active roster names |
| Tabulation.Round | Backend/server.js:161-162 | every round grows `elected` by exactly one, which makes the loop terminate |
| Tabulation.RoundOutcome | Backend/server.js:155-163 | a round elects the active name with the largest count, the earliest on ties; it eliminates the earliest active name with the smallest count, taken among all active names, and only if that is not the one just elected |
| Tabulation.RoundPreservesConsistent | Backend/server.js:161-162 | a round keeps `elected` and `eliminated` repetition-free, disjoint and made of roster names |
| Tabulation.RunConsistent | Backend/server.js:155-163 | the names elected by the loop are distinct roster names; this matches the code when every ballot entry is on the roster (`OnRoster`, which the ledger invariant gives for recorded votes) |
| Tabulation.RunBounds | Backend/server.js:155-163 | the loop elects at most 14 names, and at most as many as there are candidates |
| Tabulation.ComputeWinners | Backend/server.js:133-166 | the results handler's loop returns exactly `Tabulate` of the roster and votes |
| Tabulation.TabulateShape | Backend/server.js:155-165 | the winners number at most 14 and at most the roster size; they are distinct roster names, and the cut to 14 removes nobody; this matches the code when every ballot entry is on the roster (`OnRoster`, which the ledger invariant gives for recorded votes) |
| Tabulation.EmptyRoster | Backend/server.js:155-165 | an empty roster gives no winners |
| Tabulation.RoundNoVotes | Backend/server.js:159-162 | without ballots, a round after the first `m` roster names elects name `m` and eliminates nobody |
| Tabulation.NoVotesElectsRosterPrefix | Backend/server.js:155-165 | without ballots the winners are the first min(14, n) roster names |
| Tabulation.ExampleTallyOne | Backend/server.js:139-153 | roster [A, B, C] with ballots [A, B], [B, A], [A, C]: round one tallies A 2, B 1, C 0 |
| Tabulation.ExampleRoundOne | Backend/server.js:159-162 | round one of that example elects A and eliminates C |
| Tabulation.ExampleTallyTwo | Backend/server.js:139-153 | round two of that example tallies B 2, the ballot [A, C] crediting no one |
| Tabulation.ExampleRoundTwo | Backend/server.js:159-162 | round two of that example elects B and eliminates no one |
| Tabulation.WorkedExample | Backend/server.js:133-166 | that example's winners are [A, B] |
| Server.Store.constructor | Backend/server.js:31 | a first start reads no tokens and no votes (the `[]` fallback of `readJSON`) and keeps the invariant |
| Server.Store.CheckBallot | Backend/server.js:70-77 | the ballot checks, including the `for` loop with early return, report exactly `BallotError` |
| Server.Store.SubmitVote | Backend/server.js:58-90 | the handler's new tokens, votes and reply are those of `Submit` applied to the old ones; a rejection changes nothing; a success appends the vote; the invariant is kept |
| Server.Store.GenerateLink | Backend/server.js:106-111 | appends exactly one unused token with the given id and time, leaves the earlier tokens and the votes unchanged, and keeps the invariant |
| Server.Store.Results | Backend/server.js:133-166 | returns `Tabulate` of the stored roster and votes: at most 14 distinct roster names |

## Left out

- Express routing, helmet, cors, bodyParser, HTTP status codes and JSON response bodies: outcomes are the `Reply` and `VoteError` datatypes instead.
- `readJSON`/`writeJSON` and JSON parsing (lines 31-32): the three files are the fields of `Store`. The two writes at 82 and 87 are not atomic; crash consistency is outside the model.
- `uuidv4()` and `Date.now()` are nondeterministic foreign calls. They become parameters: `id` and `now` for issuance, and `votedAt` and `usedAt` for the two clock readings of the vote handler.
- Server.Store.GenerateLink: requires that the id is not already in the token list. This stands in for uuid uniqueness, which the code assumes without checking.
- The link string built at lines 112-113 is formatting only; `GenerateLink` returns the new token entry.
- Admin authentication (`makeToken`, `requireAdmin`, `/api/admin/login`, lines 35-48 and 93-99): it depends on the jsonwebtoken library and on secrets.
- Reporting endpoints: the CSV export (116-125) and the token, raw-vote, candidate and health listings. They only format or return stored data.
- The token's type: it is modelled as an optional string, so the `!token` test at line 61 is "absent or empty". In the code, JSON `false`, `0` and `null` tokens are also reported missing, and any other non-string token is reported invalid at line 65. Those inputs are not modelled.
- The `Array.isArray` test at line 70: the ballot is typed as a sequence of strings, so non-array ballots and non-string entries do not arise.
- Tabulation.CountFirstChoices: requires a distinct roster and only roster names in ballots. It does not model JavaScript's object-key order, which puts integer-like names first, nor a candidate named `__proto__`, for which the assignment at line 142 creates no key. Nor does it model the extra keys that `tally[choice] || 0` would create for off-roster names; recorded ballots never contain those, by the ledger invariant.
- Tabulation.ComputeWinners: carries the same two requirements, for the same reason.
- Tabulation.Tabulate: its tally keys are roster names only. For a ballot with an off-roster entry the code would add that key at line 147 and could elect it, so `Tabulate`, `RunConsistent` and `TabulateShape` agree with the code only on ballots that satisfy `OnRoster`. Recorded ballots always do, by the ledger invariant.
- The roster is a constant of `Store`: the server never writes `candidates.json`, and edits to it by hand between requests are not modelled.
- Concurrency: each handler is synchronous and runs to completion, so sequential method calls capture it.
- `Frontend/vote.js` and `Frontend/admin.js` (browser UI and network calls) and `Backend/generate-token.js` (a command-line script repeating the issuance at lines 106-111) are not part of this model.
