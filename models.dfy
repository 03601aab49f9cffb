/** The two stored entities, `User` and `FriendRequest`.

    app/models.py is not part of this model. Two facts the views rely on
    come from it and are taken here as explicit assumptions:
    - a new friend request starts in the model's default status, assumed
      to be `pending` (`DefaultStatus`);
    - `User.friends` is a symmetric many-to-many relation to `User`, so
      that adding one direction adds the other (see `Views.Befriend`). */
module Models {

  /** Primary keys of users and friend requests (auto-incremented integers). */
  type Id = nat

  datatype User = User(id: Id, email: string, name: string, passwordHash: string)

  datatype Status = Pending | Accepted | Rejected

  /** Assumed default of `FriendRequest.status`. */
  const DefaultStatus: Status := Pending

  /** The text stored in the `status` column. */
  function StatusName(s: Status): string {
    match s
    case Pending => "pending"
    case Accepted => "accepted"
    case Rejected => "rejected"
  }

  datatype FriendRequest = FriendRequest(id: Id, fromUser: Id, toUser: Id, status: Status, createdAt: int)

  /** The ids of the rows of the user table. */
  function UserIds(users: seq<User>): set<Id> {
    set u | u in users :: u.id
  }

  /** The elements of `s` come in strictly increasing order of `key`. */
  predicate OrderedBy<T>(s: seq<T>, key: T -> int) {
    forall i, j :: 0 <= i < j < |s| ==> key(s[i]) < key(s[j])
  }

  function UserKey(u: User): int {
    u.id
  }

  function RequestKey(r: FriendRequest): int {
    r.id
  }

  /** Rows come in primary-key order: ids strictly increase along the table. */
  predicate IdsIncreasing(users: seq<User>) {
    OrderedBy(users, UserKey)
  }
}
