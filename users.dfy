/** The stored user document (models/User.js) and the user collection, reduced
    to the two store calls the controllers make: a lookup by id and an update
    by id that returns the updated document. */
module Users {

  import opened Wrappers

  type UserId = string

  /** The `status` enum of a POTD entry; the schema's default is `Pending`. */
  datatype PotdStatus = Pending | Solved

  /** One entry of a user's `potd` list. */
  datatype PotdRecord = PotdRecord(date: string, problemId: string, status: PotdStatus)

  /** A user document. An unset string field is the empty string. */
  datatype User = User(
    name: string,
    college: string,
    codeforcesHandle: string,
    email: string,
    password: string,
    potd: seq<PotdRecord>)

  /** The user collection, keyed by document id. */
  class UserStore {
    var users: map<UserId, User>

    constructor (initial: map<UserId, User>)
      ensures users == initial
    {
      users := initial;
    }

    /** `User.findById(id)`. */
    function FindById(id: UserId): (found: Option<User>)
      reads this
      ensures found.Some? <==> id in users
      ensures found.Some? ==> found.value == users[id]
    {
      if id in users then Some(users[id]) else None
    }

    /** `User.findByIdAndUpdate(id, {potd}, {new: true})`: replaces the whole
        `potd` field of that user, touches nothing else, and yields the updated
        document, or nothing when no user has that id. */
    method FindByIdAndUpdatePotd(id: UserId, potd: seq<PotdRecord>) returns (updated: Option<User>)
      modifies this
      ensures id in old(users) ==>
        users == old(users)[id := old(users)[id].(potd := potd)] && updated == Some(users[id])
      ensures id !in old(users) ==> users == old(users) && updated == None
    {
      if id in users {
        users := users[id := users[id].(potd := potd)];
        updated := Some(users[id]);
      } else {
        updated := None;
      }
    }
  }
}
