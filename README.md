# Problem of the Day: selection, verification and solved dates

A Dafny model of the decision logic of the Problem-of-the-Day server's
Codeforces controller (`controllers/cfController.js`): the three request
handlers `getRandomProblem`, `markPOTD` and `getSolvedDates`, together with
the stored user record they read and write (`models/User.js`).

- `Judge` (judge.dfy): the problem and submission records the Codeforces API
  returns, and the composite key `"{contestId}-{index}"`, with the number
  rendered in decimal as a template literal does. The key is proved injective
  (`KeyInjective`), so "key in the solved set" means "same contest and index".
- `Seqs` (seqs.dfy): JavaScript's `filter`, `map`, `some` and `every` as
  recursive functions, with membership, order (subsequence) and concatenation
  facts.
- `Selection` (selection.dfy): `getRandomProblem` as a function of the request,
  the judge's answers and the random draw. It covers the solved set, the
  random and filtered candidate lists, the 404 for an empty list and the pick
  `filtered[floor(r * n)]`.
- `Users` (users.dfy): the user document with its `potd` list of
  `{date, problemId, status}` entries (`status` is `pending` or `solved`), and
  a `UserStore` class holding the collection as a map from id to user. Its
  `FindByIdAndUpdatePotd` replaces one user's `potd` field.
- `Recording` (recording.dfy): `markPOTD` as a method on the store. It runs the
  guards in the source's order, checks the claim against the judge's
  submissions for the stored handle, and overwrites the `potd` field.
- `SolvedDatesQuery` (solved_dates.dfy): `getSolvedDates` as a function reading
  the store.

Inputs that the server gets from outside:
- The judge is a function from handle to `Option<seq<Submission>>`. `None`
  stands for a call that throws, or for a result that is not an array. Both
  paths end in a 500.
- The catalog is an `Option<seq<Problem>>`.
- `Math.random()` is a real `r` with `0 <= r < 1`.
- The clock's `YYYY-MM-DD` day is a `today` string.
- The authenticated user id is a string.
- Any request field that is absent or falsy is the empty string, or `None`
  for the rating.

The selector takes its handle from the request body, while the recorder takes
it from the stored user. The model keeps this asymmetry: both handlers call the
same judge function, but on different handles.

Two details of the code shape the model. First, `markPOTD` builds its update
as `{potd: {date, problemId, status: 'solved'}}` (cfController.js:103-111).
That sets the `potd` field to a one-entry list, which discards any earlier
entries, and the response carries that single entry (line 117). `MarkPotd` and
`MarkOnTwoDays` state this overwrite. Second, `getSolvedDates` keeps only the
entries whose status is `solved` and whose date is non-empty (line 140), and
`SolvedDates` models both conditions.

## Model

| member | source | states |
|---|---|---|
| Seqs.Filter | controllers/cfController.js:42 | the result is no longer than the input; it holds exactly the input elements the callback accepts |
| Seqs.FilterCount | controllers/cfController.js:42 | every accepted value occurs in the result as often as in the input, and a rejected value not at all |
| Seqs.FilterMultiplicity | controllers/cfController.js:42 | the result is a sub-multiset of the input and keeps each accepted element with its full multiplicity |
| Seqs.Map | controllers/cfController.js:141 | the result has the input's length, and element i is the callback applied to input element i |
| Seqs.Any | controllers/cfController.js:91-96 | `some` is true iff some element satisfies the callback |
| Seqs.All | controllers/cfController.js:47 | `every` is true iff every element satisfies the callback |
| Seqs.FilterIsSubsequence | controllers/cfController.js:39-52 | a filtered list is a subsequence of its input, so it keeps the input's order |
| Seqs.FilterConcat | controllers/cfController.js:140 | filtering a concatenation gives the concatenation of the filtered parts |
| Seqs.MapConcat | controllers/cfController.js:141 | mapping a concatenation gives the concatenation of the mapped parts |
| Seqs.FilterCongruence | controllers/cfController.js:44-51 | two callbacks that agree on every element give the same filtered list |
| Seqs.MapMembership | controllers/cfController.js:26 | a value is in a mapped list iff some input element maps to it |
| Judge.NatToString | controllers/cfController.js:26 | the decimal rendering of a contest id is non-empty, made of digits only, and starts with `0` only for the number 0, which renders as `0` (no leading zero) |
| Judge.ParseNatToString | controllers/cfController.js:26 | reading the decimal rendering back gives the original number |
| Judge.NatToStringInjective | controllers/cfController.js:26 | different numbers have different decimal renderings |
| Judge.IntToString | controllers/cfController.js:26 | a rendered integer is non-empty, starts with `-` exactly when it is negative, and the rest is digits with no leading zero that read back as its absolute value; 0 renders as `0` |
| Judge.Key | controllers/cfController.js:26 | the key is the rendered contest id, then one `-`, then the index, with length the sum of the parts |
| Judge.SplitAtDash | controllers/cfController.js:26 | a digit string, a `-` and a suffix split back uniquely at the first `-` |
| Judge.KeyInjective | controllers/cfController.js:26 | equal keys `"{contestId}-{index}"` come from equal contest ids and equal indices |
| Users.UserStore.FindById | controllers/cfController.js:83 | a lookup yields a user iff the id is stored, and then the stored user |
| Users.UserStore.FindByIdAndUpdatePotd | controllers/cfController.js:111 | an existing user gets exactly the given `potd` list, all else stays, and the updated document comes back; a missing id changes nothing and yields none |
| Selection.SolvedSetMembership | controllers/cfController.js:23-27 | a key is in the solved set iff some submission with verdict OK has that key |
| Selection.SolvedSet | controllers/cfController.js:23-27 | the solved set has no more keys than there are submissions |
| Selection.SolvedSetSingleton | controllers/cfController.js:23-27 | one submission contributes its key if its verdict is OK, and nothing otherwise |
| Selection.SolvedSetConcat | controllers/cfController.js:23-27 | the solved set of a concatenated history is the union of the parts' solved sets |
| Selection.SolvedSetPermutationInvariant | controllers/cfController.js:23-27 | two histories with the same submissions, in any order and with the same multiplicities, have the same solved set |
| Selection.SolvedSetIgnoresRejected | controllers/cfController.js:25 | a submission whose verdict is not OK adds nothing to the solved set |
| Selection.SolvedSetCollapsesDuplicates | controllers/cfController.js:23 | a submission that is already in the history adds nothing again |
| Selection.SolvedByIdentity | controllers/cfController.js:50 | a problem is solved iff some accepted submission names the same contest id and index |
| Selection.PassesFilters | controllers/cfController.js:44-51 | the non-random callback accepts a problem iff its rating equals the requested one (if a rating was given), it has every requested tag, and it is unsolved |
| Selection.Unsolved | controllers/cfController.js:42 | the random-mode list contains no solved problem, is a sub-multiset of the catalog, and keeps every unsolved problem as often as the catalog lists it |
| Selection.Candidates | controllers/cfController.js:39-52 | the candidates are a subsequence and a sub-multiset of the catalog with no solved problem. In random mode every unsolved problem is kept, as often as the catalog lists it. Otherwise a problem is kept iff it passes all three filters, each passing problem as often as the catalog lists it |
| Selection.RandomModeIgnoresCriteria | controllers/cfController.js:41-42 | in random mode the requested rating and tags do not change the candidate list |
| Selection.FilteredCandidates | controllers/cfController.js:44-51 | outside random mode the candidates are exactly the catalog filtered by rating match, all tags present and unsolved |
| Selection.PickIndex | controllers/cfController.js:59 | `floor(r * n)` with `0 <= r < 1` is a valid index below n |
| Selection.PickIndexInterval | controllers/cfController.js:59 | index i is picked exactly for draws in [i/n, (i+1)/n), so every candidate is equally likely |
| Selection.DrawFor | controllers/cfController.js:59 | every index below n is picked by some draw in [0, 1) |
| Selection.GetRandomProblem | controllers/cfController.js:6-61 | a missing handle gives 400 whatever the judge says. A failed submissions fetch gives 500, and then a failed catalog fetch gives 500. An empty candidate list gives 404. Otherwise the result is one of the candidates |
| Selection.EveryCandidateCanBePicked | controllers/cfController.js:58-61 | every candidate is returned for some draw of the random number |
| Selection.PickedProblemQualifies | controllers/cfController.js:39-61 | a returned problem is in the catalog and has no accepted submission for its contest and index. Outside random mode it also has exactly the requested rating and all requested tags |
| Selection.AllSolvedGivesNoMatch | controllers/cfController.js:54-56 | when every catalog problem is solved, the answer is the 404 no-match in either mode |
| Selection.ExactRatingAndTagsExample | controllers/cfController.js:44-51 | a request for rating 1200 and tag dp over 1A (1200; dp, greedy) and 1B (1300; dp) always returns 1A |
| SolvedDatesQuery.SolvedDates | controllers/cfController.js:139-141 | the result is no longer than `potd`; a date is in it iff it is non-empty and some solved entry carries it |
| SolvedDatesQuery.SolvedDatesConcat | controllers/cfController.js:139-141 | the dates follow stored order: a concatenated history gives the first part's dates followed by the second's |
| SolvedDatesQuery.SolvedDatesAppend | controllers/cfController.js:140 | appending an entry adds its date exactly when it is solved and dated |
| SolvedDatesQuery.GetSolvedDates | controllers/cfController.js:125-144 | a missing user id gives 401 and an unknown user gives 404. Otherwise the answer is the solved dates of that user's `potd` |
| Recording.HasSolved | controllers/cfController.js:91-96 | verification is true iff some submission has verdict OK and key equal to the claimed problem id |
| Recording.HasSolvedIffInSolvedSet | controllers/cfController.js:91-96 | the verification agrees with membership in the selector's solved set |
| Recording.MarkPotd | controllers/cfController.js:70-117 | the checks run in order: missing problemId (400), missing user id (401), missing user or handle (400), failed fetch (500), not solved (400). Each leaves the store unchanged. On success the user's `potd` becomes exactly `[{today, problemId, solved}]` and nothing else changes. The response carries that entry. The solved dates become `[today]` when `today` is non-empty, and `[]` otherwise; the clock's `YYYY-MM-DD` day is never empty. The 404 is never returned |
| Recording.MarkOnTwoDays | controllers/cfController.js:103-111 | marking one verified problem on two days leaves only the second day's entry |

## Left out

- The submission history is what the judge returns. `getCFUserSubmissions` asks for at most 10000 submissions (utils/cfApi.js:16), so for a longer history the real solved set covers only the latest 10000; the model takes the judge's answer as the whole history.
- The HTTP calls to Codeforces (utils/cfApi.js) are not modelled. Their answers are inputs. A thrown error, a non-`OK` API status and a non-array result all become `None`.
- Express routing, CORS, the server and the database connection (server.js, routes/*.js) are not modelled.
- Registration and login (controllers/userController.js) and the JWT check (middleware/auth.js) are not modelled. They call bcrypt, jsonwebtoken and the database. The resolved `req.user.id` is an input.
- The `try`/`catch` 500 answers for unexpected exceptions are not modelled, and neither is `console.error` logging. Mongoose's cast errors for malformed ids are also left out.
- JavaScript truthiness and `parseInt` on the rating are not modelled. The rating is `None` when the field is falsy, else the integer `parseInt` yields. A rating string that does not parse (NaN, which matches no problem) is not modelled.
- A `contestId` that is absent from a problem, which would render as `undefined`, is not modelled. Contest ids are integers.
- The draw is an exact real. Floating-point rounding in `Math.random() * n` is not modelled.
- The reading of the clock is not modelled. `today` is a parameter.
- Interleaving of concurrent requests is not modelled. Nothing changes the store between the lookup at cfController.js:83 and the update at line 111, so the 404 at lines 113-115 is unreachable here; it can only happen if the user is deleted by another request in between.
- The other fields of the user document are carried but never inspected. Schema validation of the `status` enum is replaced by the `PotdStatus` type.
- The status of an entry defaults to `pending` when absent. This is not used, because the only writer sets `solved` explicitly.
