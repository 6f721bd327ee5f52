/**
 * MemStorage: three in-memory JavaScript Maps keyed by id (users, contact
 * inquiries, Comfort Club applications). Each Map is a `map` together with
 * the insertion order of its keys, which is the order Map.values() lists
 * them in. Ids and the clock are supplied by the caller.
 */
module Storage {
  import opened Wrappers
  import opened NewestFirst

  datatype InsertUser = InsertUser(username: string, password: string)
  datatype User = User(id: string, username: string, password: string)

  datatype InsertContactInquiry = InsertContactInquiry(
    firstName: string, lastName: string, email: string, phone: string,
    service: Option<string>, message: Option<string>)

  datatype ContactInquiry = ContactInquiry(
    id: string, firstName: string, lastName: string, email: string, phone: string,
    service: Option<string>, message: Option<string>, createdAt: int)

  datatype InsertComfortClubApplication = InsertComfortClubApplication(
    firstName: string, lastName: string, email: string, phone: string,
    address: Option<string>, systemCount: Option<string>, systemTypes: Option<string>,
    message: Option<string>)

  datatype ComfortClubApplication = ComfortClubApplication(
    id: string, firstName: string, lastName: string, email: string, phone: string,
    address: Option<string>, systemCount: Option<string>, systemTypes: Option<string>,
    message: Option<string>, status: string, createdAt: int)

  /** A falsy optional string (missing or empty) is stored as null; any other is kept. */
  function OrNull(v: Option<string>): (r: Option<string>)
    ensures r.None? <==> v.None? || v.value == []
    ensures r.Some? ==> r == v
  {
    if v.Some? && v.value != [] then v else None
  }

  function InquiryCreatedAt(c: ContactInquiry): int {
    c.createdAt
  }

  function ApplicationCreatedAt(a: ComfortClubApplication): int {
    a.createdAt
  }

  /** `order` lists the keys of m, each once: the key order of a JavaScript Map. */
  ghost predicate KeyOrder<V>(order: seq<string>, m: map<string, V>) {
    && (forall i, j :: 0 <= i < j < |order| ==> order[i] != order[j])
    && (forall k :: k in m <==> k in order)
  }

  /** The values of a map listed in the key order: what iterating a JavaScript Map yields. */
  function ValuesInOrder<V>(order: seq<string>, m: map<string, V>): (r: seq<V>)
    requires forall i :: 0 <= i < |order| ==> order[i] in m
    ensures |r| == |order|
    ensures forall i :: 0 <= i < |order| ==> r[i] == m[order[i]]
  {
    seq(|order|, i requires 0 <= i < |order| => m[order[i]])
  }

  /**
   * The key order after map.set(id, ...): a new key goes last, an existing key
   * keeps its place.
   */
  function SetOrder<V>(order: seq<string>, m: map<string, V>, id: string): (r: seq<string>)
    ensures id in m ==> r == order
    ensures id !in m ==> r == order + [id]
  {
    if id in m then order else order + [id]
  }

  /** map.set keeps the key order a key order. */
  lemma SetKeepsKeyOrder<V>(order: seq<string>, m: map<string, V>, id: string, v: V)
    requires KeyOrder(order, m)
    ensures KeyOrder(SetOrder(order, m, id), m[id := v])
  {
  }

  /** Setting a new key lists its value after all the others. */
  lemma ValuesAfterAdd<V>(order: seq<string>, m: map<string, V>, id: string, v: V)
    requires KeyOrder(order, m) && id !in m
    ensures ValuesInOrder(SetOrder(order, m, id), m[id := v]) == ValuesInOrder(order, m) + [v]
  {
  }

  /** Setting an existing key replaces its value in place and moves nothing. */
  lemma ValuesAfterReplace<V>(order: seq<string>, m: map<string, V>, id: string, v: V, i: int)
    requires KeyOrder(order, m) && 0 <= i < |order| && order[i] == id
    ensures ValuesInOrder(SetOrder(order, m, id), m[id := v]) == ValuesInOrder(order, m)[i := v]
  {
  }

  lemma ValuesInOrderAreValues<V>(order: seq<string>, m: map<string, V>)
    requires KeyOrder(order, m)
    ensures forall v :: v in ValuesInOrder(order, m) <==> v in m.Values
  {
    var r := ValuesInOrder(order, m);
    forall v | v in m.Values ensures v in r {
      var k :| k in m && m[k] == v;
      var i :| 0 <= i < |order| && order[i] == k;
      assert r[i] == v;
    }
  }

  lemma {:induction false} DistinctCardinality(order: seq<string>)
    requires forall i, j :: 0 <= i < j < |order| ==> order[i] != order[j]
    ensures |set k | k in order| == |order|
  {
    if order != [] {
      var last := order[|order| - 1];
      var init := order[..|order| - 1];
      DistinctCardinality(init);
      assert (set k | k in order) == (set k | k in init) + {last};
    }
  }

  lemma KeyOrderSize<V>(order: seq<string>, m: map<string, V>)
    requires KeyOrder(order, m)
    ensures |m| == |order|
  {
    DistinctCardinality(order);
    assert m.Keys == set k | k in order;
  }

  /** users[i] is the first user called `username`. */
  ghost predicate FirstNamed(users: seq<User>, username: string, i: int) {
    && 0 <= i < |users| && users[i].username == username
    && forall j :: 0 <= j < i ==> users[j].username != username
  }

  /** The first user in the list whose username is exactly `username`. */
  function FindByUsername(users: seq<User>, username: string): (r: Option<User>)
    ensures r.None? <==> forall i :: 0 <= i < |users| ==> users[i].username != username
    ensures r.Some? ==> exists i :: FirstNamed(users, username, i) && users[i] == r.value
  {
    if users == [] then None
    else if users[0].username == username then
      assert FirstNamed(users, username, 0);
      Some(users[0])
    else
      var r := FindByUsername(users[1..], username);
      FindShift(users, username, r);
      r
  }

  lemma FindShift(users: seq<User>, username: string, r: Option<User>)
    requires users != [] && users[0].username != username
    requires r.Some? ==> exists i :: FirstNamed(users[1..], username, i) && users[1..][i] == r.value
    ensures r.Some? ==> exists i :: FirstNamed(users, username, i) && users[i] == r.value
  {
    if r.Some? {
      var i :| FirstNamed(users[1..], username, i) && users[1..][i] == r.value;
      assert FirstNamed(users, username, i + 1);
    }
  }

  /** Finding in a list with one more user at the end: an earlier match still wins. */
  lemma {:induction false} FindAfterAppend(users: seq<User>, u: User, username: string)
    ensures FindByUsername(users + [u], username) ==
      if FindByUsername(users, username).Some? then FindByUsername(users, username)
      else if u.username == username then Some(u)
      else None
  {
    if users != [] {
      assert (users + [u])[1..] == users[1..] + [u];
      FindAfterAppend(users[1..], u, username);
    }
  }

  class MemStorage {
    var users: map<string, User>
    var userOrder: seq<string>
    var contactInquiries: map<string, ContactInquiry>
    var inquiryOrder: seq<string>
    var comfortClubApplications: map<string, ComfortClubApplication>
    var applicationOrder: seq<string>

    /** Each map knows its key order, and every record is stored under its own id. */
    ghost predicate Valid()
      reads this
    {
      && KeyOrder(userOrder, users)
      && KeyOrder(inquiryOrder, contactInquiries)
      && KeyOrder(applicationOrder, comfortClubApplications)
      && (forall k :: k in users ==> users[k].id == k)
      && (forall k :: k in contactInquiries ==> contactInquiries[k].id == k)
      && (forall k :: k in comfortClubApplications ==> comfortClubApplications[k].id == k)
    }

    constructor ()
      ensures Valid()
      ensures users == map[] && contactInquiries == map[] && comfortClubApplications == map[]
    {
      users, userOrder := map[], [];
      contactInquiries, inquiryOrder := map[], [];
      comfortClubApplications, applicationOrder := map[], [];
    }

    /** The user stored under id, if any. */
    method GetUser(id: string) returns (r: Option<User>)
      ensures r.Some? <==> id in users
      ensures r.Some? ==> r.value == users[id]
    {
      r := if id in users then Some(users[id]) else None;
    }

    /** The first user, in insertion order, whose username is `username`. */
    method GetUserByUsername(username: string) returns (r: Option<User>)
      requires Valid()
      ensures r == FindByUsername(ValuesInOrder(userOrder, users), username)
      ensures r.Some? ==> r.value in users.Values && r.value.username == username
      ensures r.None? <==> forall k :: k in users ==> users[k].username != username
    {
      r := FindByUsername(ValuesInOrder(userOrder, users), username);
      ValuesInOrderAreValues(userOrder, users);
      if r.None? {
        forall k | k in users ensures users[k].username != username {
          var i :| 0 <= i < |userOrder| && userOrder[i] == k;
          assert ValuesInOrder(userOrder, users)[i] == users[k];
        }
      } else {
        ghost var i :| FirstNamed(ValuesInOrder(userOrder, users), username, i)
                 && ValuesInOrder(userOrder, users)[i] == r.value;
        assert r.value in ValuesInOrder(userOrder, users);
      }
    }

    method CreateUser(insertUser: InsertUser, id: string) returns (user: User)
      requires Valid()
      modifies this`users, this`userOrder
      ensures Valid()
      ensures user == User(id, insertUser.username, insertUser.password)
      ensures users == old(users)[id := user]
      ensures userOrder == old(SetOrder(userOrder, users, id))
    {
      user := User(id, insertUser.username, insertUser.password);
      userOrder := SetOrder(userOrder, users, id);
      users := users[id := user];
    }

    method CreateContactInquiry(insertInquiry: InsertContactInquiry, id: string, now: int)
      returns (inquiry: ContactInquiry)
      requires Valid()
      modifies this`contactInquiries, this`inquiryOrder
      ensures Valid()
      ensures inquiry == ContactInquiry(
        id, insertInquiry.firstName, insertInquiry.lastName, insertInquiry.email, insertInquiry.phone,
        OrNull(insertInquiry.service), OrNull(insertInquiry.message), now)
      ensures contactInquiries == old(contactInquiries)[id := inquiry]
      ensures inquiryOrder == old(SetOrder(inquiryOrder, contactInquiries, id))
    {
      inquiry := ContactInquiry(
        id, insertInquiry.firstName, insertInquiry.lastName, insertInquiry.email, insertInquiry.phone,
        OrNull(insertInquiry.service), OrNull(insertInquiry.message), now);
      inquiryOrder := SetOrder(inquiryOrder, contactInquiries, id);
      contactInquiries := contactInquiries[id := inquiry];
    }

    /** All inquiries, newest first; equal timestamps keep insertion order. */
    method GetContactInquiries() returns (r: seq<ContactInquiry>)
      requires Valid()
      ensures r == SortNewestFirst(ValuesInOrder(inquiryOrder, contactInquiries), InquiryCreatedAt)
      ensures IsNewestFirst(r, InquiryCreatedAt)
      ensures multiset(r) == multiset(ValuesInOrder(inquiryOrder, contactInquiries))
      ensures |r| == |contactInquiries|
      ensures forall c :: c in r <==> c in contactInquiries.Values
    {
      var values := ValuesInOrder(inquiryOrder, contactInquiries);
      r := SortNewestFirst(values, InquiryCreatedAt);
      ValuesInOrderAreValues(inquiryOrder, contactInquiries);
      KeyOrderSize(inquiryOrder, contactInquiries);
      assert forall c :: c in r <==> c in multiset(values);
    }

    method CreateComfortClubApplication(insertApplication: InsertComfortClubApplication, id: string, now: int)
      returns (application: ComfortClubApplication)
      requires Valid()
      modifies this`comfortClubApplications, this`applicationOrder
      ensures Valid()
      ensures application == ComfortClubApplication(
        id, insertApplication.firstName, insertApplication.lastName, insertApplication.email,
        insertApplication.phone, OrNull(insertApplication.address), OrNull(insertApplication.systemCount),
        OrNull(insertApplication.systemTypes), OrNull(insertApplication.message), "pending", now)
      ensures comfortClubApplications == old(comfortClubApplications)[id := application]
      ensures applicationOrder == old(SetOrder(applicationOrder, comfortClubApplications, id))
    {
      application := ComfortClubApplication(
        id, insertApplication.firstName, insertApplication.lastName, insertApplication.email,
        insertApplication.phone, OrNull(insertApplication.address), OrNull(insertApplication.systemCount),
        OrNull(insertApplication.systemTypes), OrNull(insertApplication.message), "pending", now);
      applicationOrder := SetOrder(applicationOrder, comfortClubApplications, id);
      comfortClubApplications := comfortClubApplications[id := application];
    }

    /** All applications, newest first; equal timestamps keep insertion order. */
    method GetComfortClubApplications() returns (r: seq<ComfortClubApplication>)
      requires Valid()
      ensures r == SortNewestFirst(ValuesInOrder(applicationOrder, comfortClubApplications), ApplicationCreatedAt)
      ensures IsNewestFirst(r, ApplicationCreatedAt)
      ensures multiset(r) == multiset(ValuesInOrder(applicationOrder, comfortClubApplications))
      ensures |r| == |comfortClubApplications|
      ensures forall a :: a in r <==> a in comfortClubApplications.Values
    {
      var values := ValuesInOrder(applicationOrder, comfortClubApplications);
      r := SortNewestFirst(values, ApplicationCreatedAt);
      ValuesInOrderAreValues(applicationOrder, comfortClubApplications);
      KeyOrderSize(applicationOrder, comfortClubApplications);
      assert forall a :: a in r <==> a in multiset(values);
    }

    /**
     * Replaces the status of the application stored under id and returns the new
     * record; an unknown id changes nothing and yields undefined.
     */
    method UpdateComfortClubApplicationStatus(id: string, status: string)
      returns (r: Option<ComfortClubApplication>)
      requires Valid()
      modifies this`comfortClubApplications
      ensures Valid()
      ensures r.Some? <==> id in old(comfortClubApplications)
      ensures r.Some? ==>
        && r.value == old(comfortClubApplications)[id].(status := status)
        && comfortClubApplications == old(comfortClubApplications)[id := r.value]
      ensures r.None? ==> comfortClubApplications == old(comfortClubApplications)
    {
      if id in comfortClubApplications {
        var updated := comfortClubApplications[id].(status := status);
        comfortClubApplications := comfortClubApplications[id := updated];
        r := Some(updated);
      } else {
        r := None;
      }
    }
  }

  /** createUser, then getUser with the new id and getUserByUsername with its name. */
  method CreateUserThenLookUp(storage: MemStorage, insertUser: InsertUser, id: string)
    returns (created: User, byId: Option<User>, byName: Option<User>)
    requires storage.Valid()
    modifies storage
    ensures storage.Valid()
    ensures byId == Some(created)
    ensures byName.Some? && byName.value.username == insertUser.username
    ensures id !in old(storage.users)
            && (forall k :: k in old(storage.users) ==> old(storage.users)[k].username != insertUser.username)
            ==> byName == Some(created)
  {
    ghost var before := ValuesInOrder(storage.userOrder, storage.users);
    ghost var oldUsers := storage.users;
    ghost var oldOrder := storage.userOrder;
    created := storage.CreateUser(insertUser, id);
    byId := storage.GetUser(id);
    byName := storage.GetUserByUsername(insertUser.username);
    if id !in oldUsers && (forall k :: k in oldUsers ==> oldUsers[k].username != insertUser.username) {
      ValuesAfterAdd(oldOrder, oldUsers, id, created);
      FindAfterAppend(before, created, insertUser.username);
      forall i | 0 <= i < |before| ensures before[i].username != insertUser.username {
        assert oldOrder[i] in oldUsers;
      }
    }
  }

  /** An inquiry stamped later than every stored one heads the next listing. */
  method CreateInquiryThenList(storage: MemStorage, insertInquiry: InsertContactInquiry, id: string, now: int)
    returns (inquiry: ContactInquiry, listed: seq<ContactInquiry>)
    requires storage.Valid() && id !in storage.contactInquiries
    requires forall k :: k in storage.contactInquiries ==> storage.contactInquiries[k].createdAt < now
    modifies storage
    ensures storage.Valid()
    ensures |listed| == |old(storage.contactInquiries)| + 1
    ensures listed[0] == inquiry && inquiry.id == id && inquiry.createdAt == now
  {
    ghost var oldInquiries := storage.contactInquiries;
    ghost var oldOrder := storage.inquiryOrder;
    ghost var before := ValuesInOrder(oldOrder, oldInquiries);
    inquiry := storage.CreateContactInquiry(insertInquiry, id, now);
    listed := storage.GetContactInquiries();
    ValuesAfterAdd(oldOrder, oldInquiries, id, inquiry);
    forall x | x in before ensures InquiryCreatedAt(x) < InquiryCreatedAt(inquiry) {
      var i :| 0 <= i < |before| && before[i] == x;
      assert oldOrder[i] in oldInquiries;
    }
    NewestComesFirst(before, inquiry, InquiryCreatedAt);
  }
}
