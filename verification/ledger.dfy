/**
 * The booking routes: a bearer-token guard, creation (always "Pending"),
 * listing of every booking newest date first, and the admin-only
 * transition to "Completed", over a booking collection keyed by id.
 */
module Ledger {
  import opened Wrappers
  import opened Text
  import opened Sorting
  import Accounts

  /** A stored booking. `status` is absent on records older than the field. */
  datatype Booking = Booking(id: nat, owner: nat, name: string, contact: Option<string>, date: string,
                             time: string, service: string, notes: Option<string>, status: Option<string>)

  /** The six body fields of a booking request. */
  datatype BookingRequest = BookingRequest(name: string, contact: Option<string>, date: string,
                                           time: string, service: string, notes: Option<string>)

  /** The booking collection; `nextId` stands for the id generator. */
  datatype Store = Store(bookings: map<nat, Booking>, nextId: nat)

  const Pending: string := "Pending"
  const Completed: string := "Completed"

  /** Every booking is filed under its own id, below the next id. */
  ghost predicate Valid(s: Store) {
    forall id | id in s.bookings :: s.bookings[id].id == id && id < s.nextId
  }

  const MsgMissingToken: string := "Missing token"
  const MsgNoToken: string := "No token provided"
  const MsgInvalidToken: string := "Invalid token"
  const MsgAdminRequired: string := "Admin access required"
  const MsgNotFound: string := "Booking not found"
  const MsgMarked: string := "Booking marked as completed"

  /** `header.split(" ")[1]`: the field after the first space, up to the
      next space; absent when there is no space. */
  function SecondField(header: string): (r: Option<string>)
    ensures r.None? <==> ' ' !in header
    ensures r.Some? ==> ' ' !in r.value
    ensures r.Some? ==> var k := |Before(header, ' ')|;
              && k + 1 + |r.value| <= |header| && header[k] == ' '
              && header[k + 1..k + 1 + |r.value|] == r.value
              && (k + 1 + |r.value| == |header| || header[k + 1 + |r.value|] == ' ')
  {
    var head := Before(header, ' ');
    if |head| == |header| then
      assert head == header;
      None
    else
      var second := Before(header[|head| + 1..], ' ');
      Some(second)
  }

  /** The outcome of the `auth` middleware. */
  datatype Auth = Denied(message: string) | Granted(user: Accounts.User)

  /** The `auth` middleware: 401 for no Authorization header, for a header
      whose second space-separated field is missing or empty, and for a
      token no user holds; otherwise the request proceeds as the first user
      holding the token. */
  function Authenticate(users: Accounts.Store, header: Option<string>): (a: Auth)
    ensures header.None? || header == Some("") ==> a == Denied(MsgMissingToken)
    ensures header.Some? && header.value != "" && (SecondField(header.value).None? || SecondField(header.value) == Some(""))
            ==> a == Denied(MsgNoToken)
    ensures a.Granted? <==>
              header.Some? && header.value != "" && SecondField(header.value).Some?
              && SecondField(header.value).value != "" && !Accounts.Unused(users, SecondField(header.value).value)
    ensures a.Granted? ==> a.user in users && a.user.token == Some(SecondField(header.value).value)
    ensures header.Some? && header.value != "" && SecondField(header.value).Some?
            && SecondField(header.value).value != "" && Accounts.Unused(users, SecondField(header.value).value)
            ==> a == Denied(MsgInvalidToken)
    ensures a.Denied? ==> a.message in {MsgMissingToken, MsgNoToken, MsgInvalidToken}
  {
    if header.None? || header.value == "" then Denied(MsgMissingToken)
    else
      var token := SecondField(header.value);
      if token.None? || token.value == "" then Denied(MsgNoToken)
      else match Accounts.FindByToken(users, token.value)
        case None => Denied(MsgInvalidToken)
        case Some(i) => Granted(users[i])
  }

  /** POST /. Creates exactly one booking under a new id: the six body
      fields copied as given, owned by the caller, status "Pending". No
      other check is made. Without authentication nothing changes. */
  function Create(s: Store, users: Accounts.Store, header: Option<string>, req: BookingRequest): (r: (Store, Reply<Booking>))
    requires Valid(s)
    ensures Valid(r.0)
    ensures Authenticate(users, header).Denied? ==>
              r == (s, Reply(401, Error(Authenticate(users, header).message)))
    ensures Authenticate(users, header).Granted? ==>
              && r.1.status == 201 && r.1.body.Payload?
              && var b := r.1.body.value;
                 && b.id !in s.bookings
                 && r.0.bookings == s.bookings[b.id := b]
                 && b.owner == Authenticate(users, header).user.id
                 && b.status == Some(Pending)
                 && b.name == req.name && b.contact == req.contact && b.date == req.date
                 && b.time == req.time && b.service == req.service && b.notes == req.notes
    ensures |r.0.bookings| == |s.bookings| + (if r.1.status == 201 then 1 else 0)
  {
    match Authenticate(users, header)
    case Denied(msg) => (s, Reply(401, Error(msg)))
    case Granted(user) =>
      var b := Booking(s.nextId, user.id, req.name, req.contact, req.date, req.time,
                       req.service, req.notes, Some(Pending));
      (Store(s.bookings[s.nextId := b], s.nextId + 1), Reply(201, Payload(b)))
  }

  /** `b.status || "Pending"`. */
  function WithStatus(b: Booking): (r: Booking)
    ensures r == b.(status := r.status)
    ensures r.status == if b.status.None? || b.status == Some("") then Some(Pending) else b.status
  {
    if b.status.None? || b.status.value == "" then b.(status := Some(Pending)) else b
  }

  /** The stored bookings with ids below `n`, in id order. */
  function UpTo(m: map<nat, Booking>, n: nat): (r: seq<Booking>)
    ensures forall id | id in m && id < n :: m[id] in r
    ensures forall x | x in r :: x.id < n && exists id | id in m && id < n :: m[id] == x
    ensures forall i, j | 0 <= i < j < |r| :: r[i] != r[j]
    requires forall id | id in m :: m[id].id == id
  {
    if n == 0 then []
    else
      var rest := UpTo(m, n - 1);
      if n - 1 in m then rest + [m[n - 1]] else rest
  }

  /** The ids of `m` below `n`. */
  ghost function KeysBelow(m: map<nat, Booking>, n: nat): set<nat> {
    set id | id in m && id < n
  }

  /** `UpTo` yields one booking per stored id below `n`. */
  lemma {:induction false} UpToCount(m: map<nat, Booking>, n: nat)
    requires forall id | id in m :: m[id].id == id
    ensures |UpTo(m, n)| == |KeysBelow(m, n)|
  {
    if n > 0 {
      UpToCount(m, n - 1);
      KeysBelowStep(m, n);
    }
  }

  /** Raising the bound by one adds the id `n - 1` when it is stored. */
  lemma KeysBelowStep(m: map<nat, Booking>, n: nat)
    requires n > 0
    ensures |KeysBelow(m, n)| == |KeysBelow(m, n - 1)| + (if n - 1 in m then 1 else 0)
  {
    var a, b := KeysBelow(m, n - 1), KeysBelow(m, n);
    if n - 1 in m {
      assert b == a + {n - 1};
      assert n - 1 !in a;
    } else {
      assert b == a;
    }
  }

  /** In a valid store, the ids below `nextId` are all the stored ids. */
  lemma StoredCount(s: Store)
    requires Valid(s)
    ensures |UpTo(s.bookings, s.nextId)| == |s.bookings|
  {
    UpToCount(s.bookings, s.nextId);
    assert KeysBelow(s.bookings, s.nextId) == s.bookings.Keys;
  }

  function DateOf(b: Booking): string { b.date }

  /** The stored bookings newest date first, status defaulted. */
  function Listing(s: Store): (r: seq<Booking>)
    requires Valid(s)
    ensures SortedDescBy(r, DateOf)
    ensures |r| == |s.bookings|
    ensures forall id | id in s.bookings :: WithStatus(s.bookings[id]) in r
    ensures forall x | x in r :: exists id | id in s.bookings :: x == WithStatus(s.bookings[id])
  {
    var stored := UpTo(s.bookings, s.nextId);
    var shown := seq(|stored|, i requires 0 <= i < |stored| => WithStatus(stored[i]));
    var sorted := SortDescBy(shown, DateOf);
    ListContents(s, stored, shown, sorted);
    StoredCount(s);
    sorted
  }

  /** GET /. Every booking, whoever owns it, newest date first, with a
      missing status reported as "Pending". */
  function List(s: Store, users: Accounts.Store, header: Option<string>): (r: Reply<seq<Booking>>)
    requires Valid(s)
    ensures Authenticate(users, header).Denied? ==> r == Reply(401, Error(Authenticate(users, header).message))
    ensures Authenticate(users, header).Granted? ==> r.status == 200 && r.body.Payload?
    ensures r.body.Payload? ==> SortedDescBy(r.body.value, DateOf)
    ensures r.body.Payload? ==> |r.body.value| == |s.bookings|
    ensures r.body.Payload? ==> forall id | id in s.bookings :: WithStatus(s.bookings[id]) in r.body.value
    ensures r.body.Payload? ==> forall x | x in r.body.value ::
              exists id | id in s.bookings :: x == WithStatus(s.bookings[id])
    ensures r.body.Payload? ==> forall x | x in r.body.value :: x.status.Some? && x.status.value != ""
  {
    match Authenticate(users, header)
    case Denied(msg) => Reply(401, Error(msg))
    case Granted(_) => Reply(200, Payload(Listing(s)))
  }

  lemma ListContents(s: Store, stored: seq<Booking>, shown: seq<Booking>, sorted: seq<Booking>)
    requires Valid(s) && stored == UpTo(s.bookings, s.nextId)
    requires |shown| == |stored| && forall i | 0 <= i < |stored| :: shown[i] == WithStatus(stored[i])
    requires multiset(sorted) == multiset(shown)
    ensures forall id | id in s.bookings :: WithStatus(s.bookings[id]) in sorted
    ensures forall x | x in sorted :: exists id | id in s.bookings :: x == WithStatus(s.bookings[id])
  {
    forall id | id in s.bookings ensures WithStatus(s.bookings[id]) in sorted {
      var i :| 0 <= i < |stored| && stored[i] == s.bookings[id];
      assert shown[i] in multiset(shown);
    }
    forall x | x in sorted ensures exists id | id in s.bookings :: x == WithStatus(s.bookings[id]) {
      assert x in multiset(shown);
      var i :| 0 <= i < |shown| && shown[i] == x;
      assert stored[i] in stored;
    }
  }

  /** The body of a successful status change. */
  datatype StatusChange = StatusChange(message: string, status: string)

  /** PUT /status/:id. A non-admin gets 403 before any lookup; an unknown id
      gets 404; otherwise only that booking's status becomes "Completed".
      Every refusal leaves the collection as it was. */
  function MarkCompleted(s: Store, users: Accounts.Store, header: Option<string>, id: nat): (r: (Store, Reply<StatusChange>))
    ensures Authenticate(users, header).Denied? ==> r == (s, Reply(401, Error(Authenticate(users, header).message)))
    ensures Authenticate(users, header).Granted? && !Authenticate(users, header).user.isAdmin ==>
              r == (s, Reply(403, Error(MsgAdminRequired)))
    ensures Authenticate(users, header).Granted? && Authenticate(users, header).user.isAdmin && id !in s.bookings ==>
              r == (s, Reply(404, Error(MsgNotFound)))
    ensures r.1.status == 200 <==>
              Authenticate(users, header).Granted? && Authenticate(users, header).user.isAdmin && id in s.bookings
    ensures r.1.status == 200 ==>
              && r.0.nextId == s.nextId && r.0.bookings.Keys == s.bookings.Keys
              && r.0.bookings[id] == s.bookings[id].(status := Some(Completed))
              && forall k | k in s.bookings && k != id :: r.0.bookings[k] == s.bookings[k]
    ensures r.1.status == 200 ==> r.1.body == Payload(StatusChange(MsgMarked, Completed))
    ensures r.1.status != 200 ==> r.0 == s
    ensures Valid(s) ==> Valid(r.0)
  {
    match Authenticate(users, header)
    case Denied(msg) => (s, Reply(401, Error(msg)))
    case Granted(user) =>
      if !user.isAdmin then (s, Reply(403, Error(MsgAdminRequired)))
      else if id !in s.bookings then (s, Reply(404, Error(MsgNotFound)))
      else
        var b := s.bookings[id].(status := Some(Completed));
        (s.(bookings := s.bookings[id := b]), Reply(200, Payload(StatusChange(MsgMarked, Completed))))
  }

  /** Marking a booking completed twice leaves the same collection as
      marking it once. */
  lemma MarkCompletedIdempotent(s: Store, users: Accounts.Store, header: Option<string>, id: nat)
    ensures var once := MarkCompleted(s, users, header, id).0;
            MarkCompleted(once, users, header, id).0 == once
  {
    var once := MarkCompleted(s, users, header, id).0;
    if MarkCompleted(s, users, header, id).1.status == 200 {
      assert once.bookings[id := once.bookings[id].(status := Some(Completed))] == once.bookings;
    }
  }

  /** A booking created by a signed-in caller shows up in the listing,
      still "Pending". */
  lemma CreatedBookingIsListed(s: Store, users: Accounts.Store, header: Option<string>, req: BookingRequest)
    requires Valid(s) && Authenticate(users, header).Granted?
    ensures var (s1, reply) := Create(s, users, header, req);
            var listed := List(s1, users, header);
            listed.body.Payload? && reply.body.value in listed.body.value
            && reply.body.value.status == Some(Pending)
  {
    var (s1, reply) := Create(s, users, header, req);
    var b := reply.body.value;
    assert b.id in s1.bookings && s1.bookings[b.id] == b;
    assert WithStatus(b) == b;
  }

  /** Once completed, a booking is listed as "Completed". */
  lemma CompletedBookingIsListedCompleted(s: Store, users: Accounts.Store, header: Option<string>, id: nat)
    requires Valid(s)
    requires MarkCompleted(s, users, header, id).1.status == 200
    ensures var s1 := MarkCompleted(s, users, header, id).0;
            var listed := List(s1, users, header).body.value;
            exists x | x in listed :: x.id == id && x.status == Some(Completed)
  {
    var s1 := MarkCompleted(s, users, header, id).0;
    assert WithStatus(s1.bookings[id]) in List(s1, users, header).body.value;
  }
}
