/** The friend-request workflow of app/views.py over an in-memory store.

    The store is a `Store` object holding the user table, the friend-request
    table (in insertion order, which is primary-key order) and the friends
    relation as a set of ordered pairs. Sending, accepting and rejecting a
    request are methods that update it; the list views and the user search
    are functions over its contents. The acting user, which the views take
    from the authenticated request, is an explicit parameter. */
module Views {
  import opened Wrappers
  import opened Models
  import opened Lookups
  import opened Serializers

  datatype ViewError =
    | ValidationFailed(errors: seq<FieldError>)  // 400 with the serializer's field errors
    | InvalidFriendRequest                       // 400 "Invalid friend request"

  /** The friends relation: `(a, b)` means `b` is among `a.friends`. */
  type Friends = set<(Id, Id)>

  /** `a.friends.add(b)`. The relation is ASSUMED to be a symmetric self
      many-to-many field (app/models.py is not part of this model), so the
      reverse edge is added with it. */
  function Befriend(a: Id, b: Id): (edges: Friends)
    ensures (a, b) in edges
    ensures forall e :: e in edges ==> (e.1, e.0) in edges
  {
    {(a, b), (b, a)}
  }

  ghost predicate Symmetric(friends: Friends) {
    forall a, b :: (a, b) in friends ==> (b, a) in friends
  }

  /** Request ids strictly increase along the table and are all below the
      next id to hand out; both ends of every request are registered users. */
  predicate RequestsWellFormed(requests: seq<FriendRequest>, users: seq<User>, nextId: Id) {
    && OrderedBy(requests, RequestKey)
    && (forall i :: 0 <= i < |requests| ==> requests[i].id < nextId)
    && (forall i :: 0 <= i < |requests| ==>
          requests[i].fromUser in UserIds(users) && requests[i].toUser in UserIds(users))
  }

  // ---------------------------------------------------------------------
  // Queries: the `filter(...)` expressions of the list views and the search

  /** `queryset.filter(p)`: the elements satisfying `p`, in the queryset's order. */
  function Filter<T(!new)>(s: seq<T>, p: T -> bool): (r: seq<T>)
    ensures |r| <= |s|
    ensures forall x :: x in r <==> x in s && p(x)
  {
    if s == [] then []
    else (if p(s[0]) then [s[0]] else []) + Filter(s[1..], p)
  }

  /** Filtering keeps the order of the rows: a table ordered by a key stays ordered. */
  lemma {:induction false} FilterKeepsOrder<T(!new)>(s: seq<T>, p: T -> bool, key: T -> int)
    requires OrderedBy(s, key)
    ensures OrderedBy(Filter(s, p), key)
  {
    if s != [] {
      assert OrderedBy(s[1..], key);
      FilterKeepsOrder(s[1..], p, key);
      var rest := Filter(s[1..], p);
      if p(s[0]) {
        forall x | x in rest ensures key(s[0]) < key(x) {
          var j :| 0 <= j < |s[1..]| && s[1..][j] == x;
          assert s[j + 1] == x;
        }
        PrependKeepsOrder(s[0], rest, key);
      }
    }
  }

  lemma PrependKeepsOrder<T>(x: T, rest: seq<T>, key: T -> int)
    requires OrderedBy(rest, key)
    requires forall y :: y in rest ==> key(x) < key(y)
    ensures OrderedBy([x] + rest, key)
  {
  }

  /** `PendingFriendRequestListView`: `FriendRequest.objects.filter(to_user=user, status='pending')`. */
  function PendingList(requests: seq<FriendRequest>, user: Id): (r: seq<FriendRequest>)
    ensures forall x :: x in r <==> x in requests && x.toUser == user && x.status == Pending
  {
    Filter(requests, PendingTo(user))
  }

  function PendingTo(user: Id): FriendRequest -> bool {
    (x: FriendRequest) => x.toUser == user && x.status == Pending
  }

  /** The pending list comes in store order, that is, by increasing request id. */
  lemma PendingListInStoreOrder(requests: seq<FriendRequest>, users: seq<User>, nextId: Id, user: Id)
    requires RequestsWellFormed(requests, users, nextId)
    ensures OrderedBy(PendingList(requests, user), RequestKey)
  {
    FilterKeepsOrder(requests, PendingTo(user), RequestKey);
  }

  /** `FriendListView`: `User.objects.filter(friends=user)`, the users that have
      `user` among their friends. */
  function FriendList(users: seq<User>, friends: Friends, user: Id): (r: seq<User>)
    ensures forall v :: v in r <==> v in users && (v.id, user) in friends
  {
    Filter(users, FriendOf(friends, user))
  }

  function FriendOf(friends: Friends, user: Id): User -> bool {
    (v: User) => (v.id, user) in friends
  }

  /** The search predicate: `Q(email__iexact=query) | Q(name__icontains=query)`. */
  predicate SearchMatches(v: User, query: string)
    ensures SearchMatches(v, query) ==> IContains(v.email, query) || IContains(v.name, query)
  {
    ExactIsContained(v.email, query);
    IExact(v.email, query) || IContains(v.name, query)
  }

  /** `UserSearchView.get_queryset`: the `search` parameter defaults to the empty
      string; the acting user is excluded. */
  function Search(users: seq<User>, actor: Id, search: Option<string>): (r: seq<User>)
    ensures forall v :: v in r <==> v in users && v.id != actor && SearchMatches(v, search.GetOr(""))
  {
    Filter(users, SearchHit(search.GetOr(""), actor))
  }

  function SearchHit(query: string, actor: Id): User -> bool {
    (v: User) => SearchMatches(v, query) && v.id != actor
  }

  /** The friend list comes in user-table order. */
  lemma FriendListInTableOrder(users: seq<User>, friends: Friends, actor: Id)
    requires IdsIncreasing(users)
    ensures OrderedBy(FriendList(users, friends, actor), UserKey)
  {
    FilterKeepsOrder(users, FriendOf(friends, actor), UserKey);
  }

  /** The search results come in user-table order. */
  lemma SearchInTableOrder(users: seq<User>, actor: Id, search: Option<string>)
    requires IdsIncreasing(users)
    ensures OrderedBy(Search(users, actor, search), UserKey)
  {
    FilterKeepsOrder(users, SearchHit(search.GetOr(""), actor), UserKey);
  }

  /** With no query, or an empty one, the search returns every other user. */
  lemma SearchEmptyQuery(users: seq<User>, actor: Id, search: Option<string>)
    requires search == None || search == Some("")
    ensures forall v :: v in Search(users, actor, search) <==> v in users && v.id != actor
  {
    forall v: User ensures SearchMatches(v, "") {
      ContainsEmpty(v.name);
    }
  }

  /** The `SearchFilter` backend declared on the view further keeps only users
      whose email or name contains (ignoring case) each term of the query. A
      term is a part of the query, so this drops nothing `get_queryset` keeps. */
  lemma SearchFilterKeepsResults(users: seq<User>, actor: Id, query: string, term: string)
    requires IContains(query, term)
    ensures forall v :: v in Search(users, actor, Some(query)) ==> IContains(v.email, term) || IContains(v.name, term)
  {
    forall v | v in Search(users, actor, Some(query))
      ensures IContains(v.email, term) || IContains(v.name, term)
    {
      if IExact(v.email, query) {
        ExactThenContains(v.email, query, term);
      } else {
        ContainsTransitive(v.name, query, term);
      }
    }
  }

  // ---------------------------------------------------------------------
  // The lookup shared by accept and reject

  /** A request from `from` to `to` that is still pending. */
  predicate Matches(r: FriendRequest, from: Option<int>, to: Id) {
    from == Some(r.fromUser) && r.toUser == to && r.status == Pending
  }

  /** `FriendRequest.objects.filter(from_user_id=from, to_user=to, status='pending').first()`:
      the index of the first matching request in store order (the lowest
      primary key), or `None` when there is none. */
  function FirstPending(requests: seq<FriendRequest>, from: Option<int>, to: Id): (k: Option<nat>)
    ensures k.Some? ==> k.value < |requests| && Matches(requests[k.value], from, to)
    ensures k.Some? ==> forall j :: 0 <= j < k.value ==> !Matches(requests[j], from, to)
    ensures k.None? <==> forall j :: 0 <= j < |requests| ==> !Matches(requests[j], from, to)
  {
    if requests == [] then None
    else if Matches(requests[0], from, to) then Some(0)
    else
      match FirstPending(requests[1..], from, to)
      case None => None
      case Some(i) => Some(i + 1)
  }

  /** `friend_request.status = st; friend_request.save()` on row `k`. */
  function Resolve(requests: seq<FriendRequest>, k: nat, st: Status): (after: seq<FriendRequest>)
    requires k < |requests|
    ensures |after| == |requests|
    ensures after[k].status == st && after[k].(status := requests[k].status) == requests[k]
    ensures forall j :: 0 <= j < |after| && j != k ==> after[j] == requests[j]
  {
    requests[k := requests[k].(status := st)]
  }

  /** The number of requests from `from` to `to` still pending. */
  function CountPending(requests: seq<FriendRequest>, from: Option<int>, to: Id): nat {
    if requests == [] then 0
    else (if Matches(requests[0], from, to) then 1 else 0) + CountPending(requests[1..], from, to)
  }

  /** The lookup fails exactly when no request from `from` to `to` is pending. */
  lemma {:induction false} FirstPendingFailsIffNonePending(requests: seq<FriendRequest>, from: Option<int>, to: Id)
    ensures FirstPending(requests, from, to).None? <==> CountPending(requests, from, to) == 0
  {
    if requests != [] {
      FirstPendingFailsIffNonePending(requests[1..], from, to);
    }
  }

  /** Resolving a pending request uses up exactly one of the pending requests
      between the two users. */
  lemma {:induction false} ResolveUsesOne(requests: seq<FriendRequest>, from: Option<int>, to: Id, k: nat, st: Status)
    requires k < |requests| && Matches(requests[k], from, to) && st != Pending
    ensures CountPending(Resolve(requests, k, st), from, to) == CountPending(requests, from, to) - 1
  {
    var after := Resolve(requests, k, st);
    if k == 0 {
      assert after[1..] == requests[1..];
    } else {
      assert after[1..] == Resolve(requests[1..], k - 1, st);
      ResolveUsesOne(requests[1..], from, to, k - 1, st);
    }
  }

  /** Once the only pending request from a sender is accepted or rejected, a
      second accept or reject for that sender finds nothing. */
  lemma SecondResolveFails(requests: seq<FriendRequest>, from: Option<int>, to: Id, st: Status)
    requires CountPending(requests, from, to) == 1 && st != Pending
    ensures var k := FirstPending(requests, from, to);
      k.Some? && FirstPending(Resolve(requests, k.value, st), from, to) == None
  {
    FirstPendingFailsIffNonePending(requests, from, to);
    var k := FirstPending(requests, from, to).value;
    ResolveUsesOne(requests, from, to, k, st);
    FirstPendingFailsIffNonePending(Resolve(requests, k, st), from, to);
  }

  /** With duplicate pending requests from one sender, accepting or rejecting
      touches only the first; the next one is still pending and is the one the
      following accept or reject finds. */
  lemma DuplicateStaysPending(requests: seq<FriendRequest>, from: Option<int>, to: Id, st: Status)
    requires CountPending(requests, from, to) >= 2 && st != Pending
    ensures var k := FirstPending(requests, from, to);
      && k.Some?
      && var next := FirstPending(Resolve(requests, k.value, st), from, to);
      && next.Some? && next.value > k.value
      && Resolve(requests, k.value, st)[next.value] == requests[next.value]
  {
    FirstPendingFailsIffNonePending(requests, from, to);
    var k := FirstPending(requests, from, to).value;
    ResolveUsesOne(requests, from, to, k, st);
    var after := Resolve(requests, k, st);
    FirstPendingFailsIffNonePending(after, from, to);
    var next := FirstPending(after, from, to).value;
  }

  // ---------------------------------------------------------------------
  // Sending: the serializer's validation followed by `perform_create`

  /** The target user of a new friend request, or the serializer's errors. */
  function SendTarget(input: map<string, Value>, userIds: set<Id>): (r: Result<Id, seq<FieldError>>)
    ensures r.Success? <==> "to_user" in input && input["to_user"].Int? && input["to_user"].i in userIds
    ensures r.Success? ==> input["to_user"] == Int(r.value)
    ensures r.Failure? ==> Validate(FriendRequestFields(), input, userIds) == Failure(r.error)
  {
    FriendRequestInputRules(input, userIds);
    match Validate(FriendRequestFields(), input, userIds)
    case Failure(errs) => Failure(errs)
    case Success(data) => Success(data["to_user"].i)
  }

  /** Whatever a client sends besides `to_user` (its own `from_user`, a
      `status`, an `id`) makes no difference to sending. */
  lemma SendIgnoresClientFields(a: map<string, Value>, b: map<string, Value>, userIds: set<Id>)
    requires ("to_user" in a <==> "to_user" in b)
    requires "to_user" in a ==> a["to_user"] == b["to_user"]
    ensures SendTarget(a, userIds) == SendTarget(b, userIds)
  {
    var fs := FriendRequestFields();
    assert Writable(fs) == {"to_user"} by {
      forall k | k in Writable(fs) ensures k == "to_user" {
        var i :| 0 <= i < |fs| && !fs[i].readOnly && fs[i].name == k;
      }
      assert !fs[2].readOnly;
    }
    ValidateIgnoresReadOnly(fs, a, b, userIds);
  }

  // ---------------------------------------------------------------------
  // The store

  class Store {
    var users: seq<User>
    var requests: seq<FriendRequest>
    var friends: Friends
    var nextRequestKey: Id

    ghost predicate Valid()
      reads this
    {
      IdsIncreasing(users) && RequestsWellFormed(requests, users, nextRequestKey) && Symmetric(friends)
    }

    /** A store with the given user table, no requests and no friendships. */
    constructor (users: seq<User>)
      requires IdsIncreasing(users)
      ensures Valid()
      ensures this.users == users && requests == [] && friends == {} && nextRequestKey == 1
    {
      this.users := users;
      requests := [];
      friends := {};
      nextRequestKey := 1;
    }

    /** `FriendRequestCreateView.post`: validate the body, then save a new request
        whose sender is the acting user and whose status is the model default. */
    method Send(actor: Id, input: map<string, Value>, now: int) returns (r: Result<map<string, Value>, ViewError>)
      requires Valid() && actor in UserIds(users)
      modifies this
      ensures Valid()
      ensures users == old(users) && friends == old(friends)
      ensures match SendTarget(input, UserIds(users))
        case Failure(errs) =>
          r == Failure(ValidationFailed(errs)) && requests == old(requests) && nextRequestKey == old(nextRequestKey)
        case Success(to) =>
          var fr := FriendRequest(old(nextRequestKey), actor, to, DefaultStatus, now);
          && requests == old(requests) + [fr]
          && nextRequestKey == old(nextRequestKey) + 1
          && r == Success(FriendRequestRepresentation(fr))
    {
      var target := SendTarget(input, UserIds(users));
      match target
      case Failure(errs) =>
        r := Failure(ValidationFailed(errs));
      case Success(to) =>
        var fr := FriendRequest(nextRequestKey, actor, to, DefaultStatus, now);
        requests := requests + [fr];
        nextRequestKey := nextRequestKey + 1;
        r := Success(FriendRequestRepresentation(fr));
    }

    /** `FriendRequestAcceptView.post`: the first pending request from `userId`
        to the acting user becomes accepted and the two become friends;
        without one, an error and no change. */
    method Accept(actor: Id, userId: Option<int>) returns (r: Result<map<string, Value>, ViewError>)
      requires Valid()
      modifies this
      ensures Valid()
      ensures users == old(users) && nextRequestKey == old(nextRequestKey)
      ensures match FirstPending(old(requests), userId, actor)
        case None =>
          r == Failure(InvalidFriendRequest) && requests == old(requests) && friends == old(friends)
        case Some(k) =>
          && requests == Resolve(old(requests), k, Accepted)
          && friends == old(friends) + Befriend(actor, old(requests)[k].fromUser)
          && r == Success(FriendRequestRepresentation(requests[k]))
    {
      var found := FirstPending(requests, userId, actor);
      match found
      case None =>
        r := Failure(InvalidFriendRequest);
      case Some(k) =>
        var fr := requests[k].(status := Accepted);
        requests := requests[k := fr];
        friends := friends + Befriend(actor, fr.fromUser);
        r := Success(FriendRequestRepresentation(fr));
    }

    /** `FriendRequestRejectView.post`: the same lookup; the request becomes
        rejected and the friends relation is left alone. */
    method Reject(actor: Id, userId: Option<int>) returns (r: Result<map<string, Value>, ViewError>)
      requires Valid()
      modifies this
      ensures Valid()
      ensures users == old(users) && nextRequestKey == old(nextRequestKey) && friends == old(friends)
      ensures match FirstPending(old(requests), userId, actor)
        case None =>
          r == Failure(InvalidFriendRequest) && requests == old(requests)
        case Some(k) =>
          && requests == Resolve(old(requests), k, Rejected)
          && r == Success(FriendRequestRepresentation(requests[k]))
    {
      var found := FirstPending(requests, userId, actor);
      match found
      case None =>
        r := Failure(InvalidFriendRequest);
      case Some(k) =>
        var fr := requests[k].(status := Rejected);
        requests := requests[k := fr];
        r := Success(FriendRequestRepresentation(fr));
    }
  }

  /** Accepting makes the two users appear in each other's friend list. */
  lemma AcceptMakesMutualFriends(users: seq<User>, friends: Friends, a: Id, b: Id)
    requires a in UserIds(users) && b in UserIds(users)
    ensures var after := friends + Befriend(a, b);
      b in UserIds(FriendList(users, after, a)) && a in UserIds(FriendList(users, after, b))
  {
  }

  /** Under the symmetry the store keeps, friend lists are mutual: v is in u's
      list exactly when u is in v's. */
  lemma FriendListsMutual(users: seq<User>, friends: Friends, u: User, v: User)
    requires Symmetric(friends)
    requires u in users && v in users
    ensures v in FriendList(users, friends, u.id) <==> u in FriendList(users, friends, v.id)
  {
  }

  // ---------------------------------------------------------------------
  // Two sessions of the workflow, as a client of the store sees them

  /** Users A (id 1) and B (id 2) register, and A sends B a friend request. */
  method SetUpRequest() returns (store: Store, fr: FriendRequest)
    ensures fresh(store) && store.Valid()
    ensures fr == FriendRequest(1, 1, 2, Pending, 0)
    ensures store.users == [User(1, "a@x.com", "A", "hash-a"), User(2, "b@x.com", "B", "hash-b")]
    ensures store.requests == [fr] && store.friends == {}
  {
    var a := User(1, "a@x.com", "A", "hash-a");
    var b := User(2, "b@x.com", "B", "hash-b");
    store := new Store([a, b]);
    assert b in store.users;
    var sent := store.Send(1, map["to_user" := Int(2)], 0);
    fr := FriendRequest(1, 1, 2, Pending, 0);
  }

  /** B accepts A's request: the response shows it accepted, and each is then
      in the other's friend list. */
  method AcceptScenario() {
    var store, fr := SetUpRequest();
    var accepted := store.Accept(2, Some(1));
    assert Matches(fr, Some(1), 2);
    assert accepted == Success(FriendRequestRepresentation(fr.(status := Accepted)));
    FriendRequestRepresentationShowsAll(fr.(status := Accepted));
    assert accepted.value["status"] == Str(StatusName(Accepted));
    assert store.users[0] in FriendList(store.users, store.friends, 2);
    assert store.users[1] in FriendList(store.users, store.friends, 1);
  }

  /** After B has accepted A's request, a second accept by B fails and
      changes nothing. */
  method SecondAcceptScenario() {
    var store, fr := SetUpRequest();
    var accepted := store.Accept(2, Some(1));
    assert Matches(fr, Some(1), 2);
    var before := store.requests;
    assert before == [fr.(status := Accepted)];
    assert FirstPending(before, Some(1), 2) == None;
    var again := store.Accept(2, Some(1));
    assert again == Failure(InvalidFriendRequest);
    assert store.requests == before;
  }

  /** B rejects A's request: the response shows it rejected, and neither is
      in the other's friend list. */
  method RejectScenario() {
    var store, fr := SetUpRequest();
    var rejected := store.Reject(2, Some(1));
    assert Matches(fr, Some(1), 2);
    assert rejected == Success(FriendRequestRepresentation(fr.(status := Rejected)));
    FriendRequestRepresentationShowsAll(fr.(status := Rejected));
    assert rejected.value["status"] == Str(StatusName(Rejected));
    assert store.friends == {};
    assert store.users[1] !in FriendList(store.users, store.friends, 1);
    assert store.users[0] !in FriendList(store.users, store.friends, 2);
  }
}
