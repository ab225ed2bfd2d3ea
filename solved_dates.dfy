/** `getSolvedDates`: the dates of a user's solved POTD entries. */
module SolvedDatesQuery {

  import opened Wrappers
  import opened Seqs
  import opened Users

  datatype DatesOutcome =
    | Dates(dates: seq<string>)
    | Unauthorized
    | UserNotFound
  {
    /** The HTTP status the controller answers with. */
    function Status(): int {
      match this
      case Dates(_) => 200
      case Unauthorized => 401
      case UserNotFound => 404
    }
  }

  /** Entries that `filter(entry => entry.status === "solved" && entry.date)` keeps. */
  predicate IsSolvedEntry(e: PotdRecord) {
    e.status == Solved && e.date != ""
  }

  function EntryDate(e: PotdRecord): (d: string) {
    e.date
  }

  /** The dates of the solved entries that carry a date, in stored order. */
  function SolvedDates(potd: seq<PotdRecord>): (dates: seq<string>)
    ensures |dates| <= |potd|
    ensures forall d :: d in dates <==>
      d != "" && exists i :: 0 <= i < |potd| && potd[i].status == Solved && potd[i].date == d
  {
    var kept := Filter(potd, IsSolvedEntry);
    forall d ensures d in Map(kept, EntryDate) <==>
      d != "" && exists i :: 0 <= i < |potd| && potd[i].status == Solved && potd[i].date == d
    {
      MapMembership(kept, EntryDate, d);
      if d != "" && exists i :: 0 <= i < |potd| && potd[i].status == Solved && potd[i].date == d {
        var i :| 0 <= i < |potd| && potd[i].status == Solved && potd[i].date == d;
        assert potd[i] in kept;
      }
    }
    Map(kept, EntryDate)
  }

  /** The query follows stored order: the dates of a concatenated history are
      the dates of the first part followed by those of the second. */
  lemma SolvedDatesConcat(a: seq<PotdRecord>, b: seq<PotdRecord>)
    ensures SolvedDates(a + b) == SolvedDates(a) + SolvedDates(b)
  {
    FilterConcat(a, b, IsSolvedEntry);
    MapConcat(Filter(a, IsSolvedEntry), Filter(b, IsSolvedEntry), EntryDate);
  }

  /** Appending one entry adds its date exactly when it is solved and dated. */
  lemma SolvedDatesAppend(potd: seq<PotdRecord>, e: PotdRecord)
    ensures SolvedDates(potd + [e]) ==
      SolvedDates(potd) + (if e.status == Solved && e.date != "" then [e.date] else [])
  {
    SolvedDatesConcat(potd, [e]);
    assert [e][1..] == [];
  }

  /** `GET /get-solved-dates` for the authenticated user id (empty when the
      token carried none). */
  function GetSolvedDates(store: UserStore, userId: UserId): (o: DatesOutcome)
    reads store
    ensures userId == "" <==> o == Unauthorized
    ensures o == UserNotFound <==> userId != "" && userId !in store.users
    ensures o.Dates? ==> userId in store.users && o.dates == SolvedDates(store.users[userId].potd)
  {
    if userId == "" then Unauthorized
    else
      match store.FindById(userId)
      case None => UserNotFound
      case Some(user) => Dates(SolvedDates(user.potd))
  }
}
