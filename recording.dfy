/** `markPOTD`: check the request, verify the claimed problem against the
    judge's submissions for the stored handle, then overwrite the user's
    `potd` field with one solved entry for today. */
module Recording {

  import opened Wrappers
  import opened Seqs
  import opened Judge
  import opened Users
  import Selection
  import SolvedDatesQuery

  datatype MarkOutcome =
    | Marked(potd: PotdRecord)
    | MissingProblemId
    | Unauthorized
    | HandleNotSet
    | SubmissionsUnavailable
    | NotYetSolved
    | UserNotFound
  {
    /** The HTTP status the controller answers with. */
    function Status(): int {
      match this
      case Marked(_) => 200
      case MissingProblemId => 400
      case Unauthorized => 401
      case HandleNotSet => 400
      case SubmissionsUnavailable => 500
      case NotYetSolved => 400
      case UserNotFound => 404
    }
  }

  /** `submissions.some(sub => sub.verdict === 'OK' && key(sub) === problemId)`. */
  function HasSolved(submissions: seq<Submission>, problemId: string): (b: bool)
    ensures b <==>
      exists i :: 0 <= i < |submissions| && Selection.IsAccepted(submissions[i]) && SubmissionKey(submissions[i]) == problemId
  {
    Any(submissions, (s: Submission) => Selection.IsAccepted(s) && SubmissionKey(s) == problemId)
  }

  /** The verification agrees with the solved set the selector excludes. */
  lemma HasSolvedIffInSolvedSet(submissions: seq<Submission>, problemId: string)
    ensures HasSolved(submissions, problemId) <==> problemId in Selection.SolvedSet(submissions)
  {
    Selection.SolvedSetMembership(submissions, problemId);
  }

  /** The user exists and has a linked handle. */
  predicate HandleLinked(users: map<UserId, User>, userId: UserId) {
    userId in users && users[userId].codeforcesHandle != ""
  }

  /** `POST /mark-potd` for the authenticated user id (empty when the token
      carried none); `today` is the UTC day `YYYY-MM-DD`, and `submissionsOf`
      is what the judge reports for a handle. */
  method MarkPotd(store: UserStore, userId: UserId, problemId: string, today: string,
                  submissionsOf: string -> Option<seq<Submission>>) returns (o: MarkOutcome)
    modifies store
    ensures problemId == "" ==> o == MissingProblemId
    ensures problemId != "" && userId == "" ==> o == Unauthorized
    ensures problemId != "" && userId != "" && !HandleLinked(old(store.users), userId) ==> o == HandleNotSet
    ensures problemId != "" && userId != "" && HandleLinked(old(store.users), userId) ==>
      var submissions := submissionsOf(old(store.users)[userId].codeforcesHandle);
      && (submissions.None? ==> o == SubmissionsUnavailable)
      && (submissions.Some? && !HasSolved(submissions.value, problemId) ==> o == NotYetSolved)
      && (submissions.Some? && HasSolved(submissions.value, problemId) ==>
            o == Marked(PotdRecord(today, problemId, Solved)))
    ensures o.Marked? ==>
      store.users == old(store.users)[userId := old(store.users)[userId].(potd := [o.potd])]
    ensures !o.Marked? ==> store.users == old(store.users)
    ensures o.Marked? ==>
      SolvedDatesQuery.GetSolvedDates(store, userId) ==
        SolvedDatesQuery.Dates(if today == "" then [] else [today])
    ensures o != UserNotFound
  {
    if problemId == "" {
      return MissingProblemId;
    }
    if userId == "" {
      return Unauthorized;
    }
    var dbUser := store.FindById(userId);
    if dbUser.None? || dbUser.value.codeforcesHandle == "" {
      return HandleNotSet;
    }
    var fetched := submissionsOf(dbUser.value.codeforcesHandle);
    if fetched.None? {
      return SubmissionsUnavailable;
    }
    if !HasSolved(fetched.value, problemId) {
      return NotYetSolved;
    }
    var entry := PotdRecord(today, problemId, Solved);
    var updated := store.FindByIdAndUpdatePotd(userId, [entry]);
    if updated.None? {
      return UserNotFound;
    }
    assert SolvedDatesQuery.SolvedDates([entry]) == if today == "" then [] else [today] by {
      SolvedDatesQuery.SolvedDatesAppend([], entry);
      assert [] + [entry] == [entry];
    }
    return Marked(entry);
  }

  /** Two overwrites of one user's `potd` leave only the second. */
  lemma OverwriteTwice(users: map<UserId, User>, userId: UserId, potd1: seq<PotdRecord>, potd2: seq<PotdRecord>)
    requires userId in users
    ensures var once := users[userId := users[userId].(potd := potd1)];
      once[userId := once[userId].(potd := potd2)] == users[userId := users[userId].(potd := potd2)]
  {
  }

  /** Marking the same verified problem on two days keeps only the second
      day's entry: the field is overwritten, not appended to. */
  method MarkOnTwoDays(store: UserStore, userId: UserId, problemId: string, day1: string, day2: string,
                       submissionsOf: string -> Option<seq<Submission>>) returns (first: MarkOutcome, second: MarkOutcome)
    requires problemId != "" && userId != "" && HandleLinked(store.users, userId)
    requires submissionsOf(store.users[userId].codeforcesHandle).Some?
    requires HasSolved(submissionsOf(store.users[userId].codeforcesHandle).value, problemId)
    modifies store
    ensures first == Marked(PotdRecord(day1, problemId, Solved))
    ensures second == Marked(PotdRecord(day2, problemId, Solved))
    ensures userId in store.users && store.users[userId].potd == [PotdRecord(day2, problemId, Solved)]
    ensures store.users == old(store.users)[userId := old(store.users)[userId].(potd := [second.potd])]
  {
    ghost var before := store.users;
    ghost var handle := store.users[userId].codeforcesHandle;
    ghost var submissions := submissionsOf(handle);
    first := MarkPotd(store, userId, problemId, day1, submissionsOf);
    assert first == Marked(PotdRecord(day1, problemId, Solved));
    assert store.users[userId].codeforcesHandle == handle;
    assert HandleLinked(store.users, userId);
    assert submissionsOf(store.users[userId].codeforcesHandle) == submissions;
    second := MarkPotd(store, userId, problemId, day2, submissionsOf);
    assert second == Marked(PotdRecord(day2, problemId, Solved));
    OverwriteTwice(before, userId, [first.potd], [second.potd]);
  }
}
