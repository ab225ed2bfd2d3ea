/** `getRandomProblem`: the solved set of a handle, the candidate filter over
    the catalog, and the pick of one candidate. The judge is an input: a
    function from handle to the submissions the judge reports (`None` when
    the call fails or returns no array), and the catalog it reports. The
    random number is an input in [0, 1). */
module Selection {

  import opened Wrappers
  import opened Seqs
  import opened Judge

  /** The request body. `rating` is `None` when the field is falsy; an absent
      handle is the empty string. */
  datatype Request = Request(rating: Option<int>, tags: seq<string>, random: bool, handle: string)

  datatype SelectOutcome =
    | Picked(problem: Problem)
    | HandleRequired
    | SubmissionsUnavailable
    | CatalogUnavailable
    | NoMatch
  {
    /** The HTTP status the controller answers with. */
    function Status(): int {
      match this
      case Picked(_) => 200
      case HandleRequired => 400
      case SubmissionsUnavailable => 500
      case CatalogUnavailable => 500
      case NoMatch => 404
    }
  }

  predicate IsAccepted(s: Submission) {
    s.verdict == Accepted
  }

  /** The keys of the accepted submissions, in submission order. */
  function AcceptedKeys(submissions: seq<Submission>): (keys: seq<string>) {
    Map(Filter(submissions, IsAccepted), SubmissionKey)
  }

  /** `new Set(submissions.filter(OK).map(key))`: duplicates collapse, so the
      set is never larger than the history. */
  function SolvedSet(submissions: seq<Submission>): (solved: set<string>)
    ensures |solved| <= |submissions|
  {
    var keys := AcceptedKeys(submissions);
    SetOfSeqBound(keys);
    set k | k in keys
  }

  lemma {:induction false} SetOfSeqBound(s: seq<string>)
    ensures |set k | k in s| <= |s|
  {
    if s != [] {
      SetOfSeqBound(s[1..]);
      assert (set k | k in s) == {s[0]} + (set k | k in s[1..]);
    }
  }

  /** A key is in the solved set exactly when some accepted submission has it. */
  lemma SolvedSetMembership(submissions: seq<Submission>, k: string)
    ensures k in SolvedSet(submissions) <==>
      exists i :: 0 <= i < |submissions| && IsAccepted(submissions[i]) && SubmissionKey(submissions[i]) == k
  {
    var accepted := Filter(submissions, IsAccepted);
    MapMembership(accepted, SubmissionKey, k);
  }

  predicate MatchesRating(p: Problem, rating: Option<int>) {
    rating.None? || p.rating == Some(rating.value)
  }

  predicate HasAllTags(p: Problem, tags: seq<string>) {
    forall i :: 0 <= i < |tags| ==> tags[i] in p.tags
  }

  /** The non-random filter callback, with its three early exits. */
  function PassesFilters(p: Problem, solved: set<string>, rating: Option<int>, tags: seq<string>): (b: bool)
    ensures b <==> MatchesRating(p, rating) && HasAllTags(p, tags) && ProblemKey(p) !in solved
  {
    if rating.Some? && p.rating != Some(rating.value) then false
    else if |tags| > 0 && !All(tags, t => t in p.tags) then false
    else ProblemKey(p) !in solved
  }

  /** The random-mode callback of `problems.filter`: every unsolved problem,
      each as often as the catalog lists it, and no solved one. */
  function Unsolved(problems: seq<Problem>, solved: set<string>): (u: seq<Problem>)
    ensures forall i :: 0 <= i < |u| ==> ProblemKey(u[i]) !in solved
    ensures multiset(u) <= multiset(problems)
    ensures forall i :: 0 <= i < |problems| && ProblemKey(problems[i]) !in solved ==>
      multiset(u)[problems[i]] == multiset(problems)[problems[i]]
  {
    FilterMultiplicity(problems, p => ProblemKey(p) !in solved);
    Filter(problems, p => ProblemKey(p) !in solved)
  }

  /** The `filtered` list: unsolved problems in random mode, otherwise the
      problems that pass all three filters, in catalog order in both modes. */
  function Candidates(problems: seq<Problem>, solved: set<string>, req: Request): (c: seq<Problem>)
    ensures IsSubsequence(c, problems)
    ensures forall i :: 0 <= i < |c| ==> c[i] in problems && ProblemKey(c[i]) !in solved
    ensures req.random ==>
      forall i :: 0 <= i < |problems| && ProblemKey(problems[i]) !in solved ==> problems[i] in c
    ensures !req.random ==>
      forall i :: 0 <= i < |c| ==> MatchesRating(c[i], req.rating) && HasAllTags(c[i], req.tags)
    ensures !req.random ==>
      forall i :: 0 <= i < |problems| ==>
        var p := problems[i];
        MatchesRating(p, req.rating) && HasAllTags(p, req.tags) && ProblemKey(p) !in solved ==> p in c
    ensures multiset(c) <= multiset(problems)
    ensures req.random ==>
      forall i :: 0 <= i < |problems| && ProblemKey(problems[i]) !in solved ==>
        multiset(c)[problems[i]] == multiset(problems)[problems[i]]
    ensures !req.random ==>
      forall i :: 0 <= i < |problems| ==>
        var p := problems[i];
        MatchesRating(p, req.rating) && HasAllTags(p, req.tags) && ProblemKey(p) !in solved ==>
          multiset(c)[p] == multiset(problems)[p]
  {
    if req.random then
      FilterIsSubsequence(problems, p => ProblemKey(p) !in solved);
      Unsolved(problems, solved)
    else
      var keep := p => PassesFilters(p, solved, req.rating, req.tags);
      FilterIsSubsequence(problems, keep);
      FilterMultiplicity(problems, keep);
      Filter(problems, keep)
  }

  /** `Math.floor(r * n)` for the number `r` drawn by `Math.random()`. */
  function PickIndex(r: real, n: nat): (i: nat)
    requires 0.0 <= r < 1.0 && n > 0
    ensures i < n
  {
    var x := r * n as real;
    assert x < n as real by {
      assert (1.0 - r) * n as real > 0.0;
    }
    x.Floor
  }

  function GetRandomProblem(req: Request, submissionsOf: string -> Option<seq<Submission>>,
                            catalog: Option<seq<Problem>>, r: real): (o: SelectOutcome)
    requires 0.0 <= r < 1.0
    ensures req.handle == "" <==> o == HandleRequired
    ensures req.handle != "" && submissionsOf(req.handle).None? <==> o == SubmissionsUnavailable
    ensures o == CatalogUnavailable <==>
      req.handle != "" && submissionsOf(req.handle).Some? && catalog.None?
    ensures o == NoMatch <==>
      req.handle != "" && submissionsOf(req.handle).Some? && catalog.Some?
      && Candidates(catalog.value, SolvedSet(submissionsOf(req.handle).value), req) == []
    ensures o.Picked? ==>
      req.handle != "" && submissionsOf(req.handle).Some? && catalog.Some?
      && o.problem in Candidates(catalog.value, SolvedSet(submissionsOf(req.handle).value), req)
  {
    if req.handle == "" then HandleRequired
    else
      match submissionsOf(req.handle)
      case None => SubmissionsUnavailable
      case Some(submissions) =>
        var solved := SolvedSet(submissions);
        match catalog
        case None => CatalogUnavailable
        case Some(problems) =>
          var filtered := Candidates(problems, solved, req);
          if |filtered| == 0 then NoMatch
          else Picked(filtered[PickIndex(r, |filtered|)])
  }

  // ----- The solved set -----

  /** Building the solved set commutes with concatenating histories. */
  lemma SolvedSetConcat(a: seq<Submission>, b: seq<Submission>)
    ensures SolvedSet(a + b) == SolvedSet(a) + SolvedSet(b)
  {
    FilterConcat(a, b, IsAccepted);
    MapConcat(Filter(a, IsAccepted), Filter(b, IsAccepted), SubmissionKey);
    var x, y := AcceptedKeys(a), AcceptedKeys(b);
    assert AcceptedKeys(a + b) == x + y;
    SetOfConcat(x, y);
  }

  lemma SetOfConcat(x: seq<string>, y: seq<string>)
    ensures (set k | k in x + y) == (set k | k in x) + (set k | k in y)
  {
  }

  /** The order of the submission history does not matter: any reordering
      gives the same solved set. */
  lemma SolvedSetPermutationInvariant(a: seq<Submission>, b: seq<Submission>)
    requires multiset(a) == multiset(b)
    ensures SolvedSet(a) == SolvedSet(b)
  {
    forall k ensures k in SolvedSet(a) <==> k in SolvedSet(b) {
      SolvedSetMembership(a, k);
      SolvedSetMembership(b, k);
      if k in SolvedSet(a) {
        var i :| 0 <= i < |a| && IsAccepted(a[i]) && SubmissionKey(a[i]) == k;
        assert a[i] in multiset(b);
        var j :| 0 <= j < |b| && b[j] == a[i];
      }
      if k in SolvedSet(b) {
        var j :| 0 <= j < |b| && IsAccepted(b[j]) && SubmissionKey(b[j]) == k;
        assert b[j] in multiset(a);
        var i :| 0 <= i < |a| && a[i] == b[j];
      }
    }
  }

  /** The solved set of a single submission. */
  lemma SolvedSetSingleton(s: Submission)
    ensures SolvedSet([s]) == if IsAccepted(s) then {SubmissionKey(s)} else {}
  {
    assert [s][1..] == [];
    assert Filter([s], IsAccepted) == if IsAccepted(s) then [s] else [];
  }

  /** A submission whose verdict is not OK contributes nothing. */
  lemma SolvedSetIgnoresRejected(submissions: seq<Submission>, s: Submission)
    requires s.verdict != Accepted
    ensures SolvedSet(submissions + [s]) == SolvedSet(submissions)
  {
    SolvedSetConcat(submissions, [s]);
    SolvedSetSingleton(s);
  }

  /** A repeated accepted submission collapses into the key already present. */
  lemma SolvedSetCollapsesDuplicates(submissions: seq<Submission>, s: Submission)
    requires s in submissions
    ensures SolvedSet(submissions + [s]) == SolvedSet(submissions)
  {
    SolvedSetConcat(submissions, [s]);
    SolvedSetSingleton(s);
    if IsAccepted(s) {
      AcceptedKeySolved(submissions, s);
    }
  }

  lemma AcceptedKeySolved(submissions: seq<Submission>, s: Submission)
    requires s in submissions && IsAccepted(s)
    ensures SubmissionKey(s) in SolvedSet(submissions)
  {
    var i :| 0 <= i < |submissions| && submissions[i] == s;
    SolvedSetMembership(submissions, SubmissionKey(s));
  }

  /** A catalog problem counts as solved exactly when some accepted submission
      was made for the same contest and index. */
  lemma SolvedByIdentity(submissions: seq<Submission>, p: Problem)
    ensures ProblemKey(p) in SolvedSet(submissions) <==>
      exists i :: 0 <= i < |submissions| && IsAccepted(submissions[i])
        && submissions[i].problem.contestId == p.contestId && submissions[i].problem.index == p.index
  {
    SolvedSetMembership(submissions, ProblemKey(p));
    if ProblemKey(p) in SolvedSet(submissions) {
      var i :| 0 <= i < |submissions| && IsAccepted(submissions[i]) && SubmissionKey(submissions[i]) == ProblemKey(p);
      KeyInjective(submissions[i].problem.contestId, submissions[i].problem.index, p.contestId, p.index);
    }
  }

  // ----- The candidate list -----

  /** In random mode the rating and the tags of the request are ignored. */
  lemma RandomModeIgnoresCriteria(problems: seq<Problem>, solved: set<string>, req1: Request, req2: Request)
    requires req1.random && req2.random
    ensures Candidates(problems, solved, req1) == Candidates(problems, solved, req2)
  {
  }

  /** Outside random mode, the candidates are the problems that pass all three
      filters, and nothing else, in catalog order. */
  lemma FilteredCandidates(problems: seq<Problem>, solved: set<string>, req: Request)
    requires !req.random
    ensures Candidates(problems, solved, req) ==
      Filter(problems, p => MatchesRating(p, req.rating) && HasAllTags(p, req.tags) && ProblemKey(p) !in solved)
  {
    FilterCongruence(problems, p => PassesFilters(p, solved, req.rating, req.tags),
      p => MatchesRating(p, req.rating) && HasAllTags(p, req.tags) && ProblemKey(p) !in solved);
  }


  // ----- The pick -----

  /** Multiplying by a positive number keeps the order of reals. */
  lemma ScaleOrder(x: real, y: real, m: real)
    requires m > 0.0
    ensures x <= y <==> x * m <= y * m
    ensures x < y <==> x * m < y * m
  {
    assert (y - x) * m == y * m - x * m;
  }

  /** Each index is picked for exactly the draws in an interval of width 1/n,
      so every candidate is equally likely under a uniform draw. */
  lemma PickIndexInterval(r: real, n: nat, i: nat)
    requires 0.0 <= r < 1.0 && n > 0
    ensures PickIndex(r, n) == i <==> i as real / n as real <= r < (i + 1) as real / n as real
  {
    var m := n as real;
    var lo, hi := i as real / m, (i + 1) as real / m;
    assert lo * m == i as real;
    assert hi * m == (i + 1) as real;
    ScaleOrder(lo, r, m);
    ScaleOrder(r, hi, m);
  }

  /** A draw that picks index `i` of `n`. */
  lemma DrawFor(i: nat, n: nat) returns (r: real)
    requires i < n
    ensures 0.0 <= r < 1.0 && PickIndex(r, n) == i
  {
    r := i as real / n as real;
    assert r * n as real == i as real;
    assert r < 1.0 by {
      assert (i as real) < n as real;
    }
  }

  /** Every candidate is the answer for some draw of `Math.random()`. */
  lemma EveryCandidateCanBePicked(req: Request, submissionsOf: string -> Option<seq<Submission>>,
                                  problems: seq<Problem>, p: Problem)
    requires req.handle != "" && submissionsOf(req.handle).Some?
    requires p in Candidates(problems, SolvedSet(submissionsOf(req.handle).value), req)
    ensures exists r: real :: 0.0 <= r < 1.0 && GetRandomProblem(req, submissionsOf, Some(problems), r) == Picked(p)
  {
    var c := Candidates(problems, SolvedSet(submissionsOf(req.handle).value), req);
    var i :| 0 <= i < |c| && c[i] == p;
    var r := DrawFor(i, |c|);
    assert GetRandomProblem(req, submissionsOf, Some(problems), r) == Picked(c[i]);
  }

  // ----- The whole request -----

  /** A picked problem is in the catalog, has no accepted submission for the
      same contest and index, and outside random mode matches the requested
      rating exactly and carries every requested tag. */
  lemma PickedProblemQualifies(req: Request, submissionsOf: string -> Option<seq<Submission>>,
                               catalog: Option<seq<Problem>>, r: real)
    requires 0.0 <= r < 1.0
    requires GetRandomProblem(req, submissionsOf, catalog, r).Picked?
    ensures
      var p := GetRandomProblem(req, submissionsOf, catalog, r).problem;
      var submissions := submissionsOf(req.handle).value;
      && p in catalog.value
      && !(exists i :: 0 <= i < |submissions| && IsAccepted(submissions[i])
             && submissions[i].problem.contestId == p.contestId && submissions[i].problem.index == p.index)
      && (!req.random ==> MatchesRating(p, req.rating) && HasAllTags(p, req.tags))
  {
    var p := GetRandomProblem(req, submissionsOf, catalog, r).problem;
    var submissions := submissionsOf(req.handle).value;
    var c := Candidates(catalog.value, SolvedSet(submissions), req);
    var i :| 0 <= i < |c| && c[i] == p;
    SolvedByIdentity(submissions, p);
  }

  /** When every catalog problem is already solved the answer is the 404
      "no match", in either mode. */
  lemma AllSolvedGivesNoMatch(req: Request, submissionsOf: string -> Option<seq<Submission>>,
                              problems: seq<Problem>, r: real)
    requires 0.0 <= r < 1.0
    requires req.handle != "" && submissionsOf(req.handle).Some?
    requires forall i :: 0 <= i < |problems| ==> ProblemKey(problems[i]) in SolvedSet(submissionsOf(req.handle).value)
    ensures GetRandomProblem(req, submissionsOf, Some(problems), r) == NoMatch
  {
    assert Candidates(problems, SolvedSet(submissionsOf(req.handle).value), req) == [];
  }

  // ----- A worked request -----

  /** Rating 1200 with tag "dp" against problems 1A (1200; dp, greedy) and
      1B (1300; dp) from a handle with no submissions: only 1A qualifies, so
      every draw returns it. */
  lemma ExactRatingAndTagsExample(r: real)
    requires 0.0 <= r < 1.0
    ensures
      var p1a := Problem(1, "A", "", Some(1200), ["dp", "greedy"]);
      var p1b := Problem(1, "B", "", Some(1300), ["dp"]);
      var req := Request(Some(1200), ["dp"], false, "tourist");
      GetRandomProblem(req, h => Some([]), Some([p1a, p1b]), r) == Picked(p1a)
  {
    var p1a := Problem(1, "A", "", Some(1200), ["dp", "greedy"]);
    var p1b := Problem(1, "B", "", Some(1300), ["dp"]);
    var req := Request(Some(1200), ["dp"], false, "tourist");
    var keep := p => PassesFilters(p, {}, req.rating, req.tags);
    assert SolvedSet([]) == {};
    assert keep(p1a) by {
      assert HasAllTags(p1a, req.tags) by {
        assert req.tags[0] == p1a.tags[0];
      }
    }
    assert !keep(p1b);
    assert [p1a, p1b][1..] == [p1b];
    assert Filter([p1b], keep) == [];
    assert Candidates([p1a, p1b], {}, req) == [p1a];
  }
}
