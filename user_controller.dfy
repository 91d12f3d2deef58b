/** The user controller (server/controllers/userController.js): the list
    of a user's live bookings, newest first; the profile lookup without the
    password; and the profile update through a whitelist of fields. */
module UserController {
  import opened Wrappers
  import opened Strings
  import UserModel
  import BookingModel

  // -----------------------------------------------------------------------
  // getUserBookings

  /** `Booking.find({ user: userId, isCancelled: false })` over the
      collection in its natural order. */
  function LiveBookingsOf(bookings: seq<BookingModel.Booking>, userId: string): (r: seq<BookingModel.Booking>)
    ensures forall b :: b in r <==> b in bookings && b.user == userId && !b.isCancelled
    ensures |r| <= |bookings|
  {
    if |bookings| == 0 then []
    else
      var rest := LiveBookingsOf(bookings[1..], userId);
      if bookings[0].user == userId && !bookings[0].isCancelled then [bookings[0]] + rest else rest
  }

  /** Ordered by `createdAt`, newest first. */
  ghost predicate NewestFirst(s: seq<BookingModel.Booking>) {
    forall i, j :: 0 <= i < j < |s| ==> s[i].createdAt >= s[j].createdAt
  }

  /** Inserts a booking before the first one that is not newer. */
  function InsertByDate(b: BookingModel.Booking, s: seq<BookingModel.Booking>): (r: seq<BookingModel.Booking>)
    requires NewestFirst(s)
    ensures NewestFirst(r)
    ensures multiset(r) == multiset(s) + multiset{b}
  {
    if |s| == 0 then [b]
    else if b.createdAt >= s[0].createdAt then
      NotNewerThanHead(s);
      PrependNewest(b, s);
      [b] + s
    else
      var tail := InsertByDate(b, s[1..]);
      InsertBehindHead(b, s, tail);
      [s[0]] + tail
  }

  /** The step of `InsertByDate` that keeps the head in front. */
  lemma InsertBehindHead(b: BookingModel.Booking, s: seq<BookingModel.Booking>, tail: seq<BookingModel.Booking>)
    requires NewestFirst(s) && |s| > 0 && b.createdAt < s[0].createdAt
    requires NewestFirst(tail) && multiset(tail) == multiset(s[1..]) + multiset{b}
    ensures NewestFirst([s[0]] + tail)
    ensures multiset([s[0]] + tail) == multiset(s) + multiset{b}
  {
    NotNewerThanHead(s);
    forall y | y in tail ensures y.createdAt <= s[0].createdAt {
      assert y in multiset(tail);
    }
    PrependNewest(s[0], tail);
    assert s == [s[0]] + s[1..];
  }

  lemma NotNewerThanHead(s: seq<BookingModel.Booking>)
    requires NewestFirst(s) && |s| > 0
    ensures NewestFirst(s[1..])
    ensures forall y :: y in s[1..] ==> y.createdAt <= s[0].createdAt
  {
    forall y | y in s[1..] ensures y.createdAt <= s[0].createdAt {
      var k :| 0 <= k < |s[1..]| && s[1..][k] == y;
      assert s[k + 1] == y;
    }
  }

  lemma PrependNewest(x: BookingModel.Booking, t: seq<BookingModel.Booking>)
    requires NewestFirst(t)
    requires forall y :: y in t ==> y.createdAt <= x.createdAt
    ensures NewestFirst([x] + t)
  {
    var r := [x] + t;
    forall i, j | 0 <= i < j < |r| ensures r[i].createdAt >= r[j].createdAt {
      if i == 0 {
        assert r[j] in t;
      } else {
        assert r[i] == t[i - 1] && r[j] == t[j - 1];
      }
    }
  }

  /** `.sort({ createdAt: -1 })`: the same bookings, newest first. */
  function SortNewestFirst(s: seq<BookingModel.Booking>): (r: seq<BookingModel.Booking>)
    ensures NewestFirst(r)
    ensures multiset(r) == multiset(s)
  {
    if |s| == 0 then []
    else
      assert s == [s[0]] + s[1..];
      InsertByDate(s[0], SortNewestFirst(s[1..]))
  }

  /** The JSON answer of `getUserBookings`. */
  datatype BookingsReply = BookingsOk(bookings: seq<BookingModel.Booking>) | BookingsFailed(message: string)

  /** `getUserBookings`; `queryError` stands for the query failing with
      that message. */
  function GetUserBookings(bookings: seq<BookingModel.Booking>, userId: string, queryError: Option<string>): (r: BookingsReply)
    ensures queryError.Some? ==> r == BookingsFailed(queryError.value)
    ensures queryError.None? ==> r.BookingsOk?
    ensures r.BookingsOk? ==> NewestFirst(r.bookings)
    ensures r.BookingsOk? ==> multiset(r.bookings) == multiset(LiveBookingsOf(bookings, userId))
  {
    if queryError.Some? then BookingsFailed(queryError.value)
    else BookingsOk(SortNewestFirst(LiveBookingsOf(bookings, userId)))
  }

  /** The list holds exactly that user's bookings that are not cancelled,
      each as often as in the collection, and the first one listed is at
      least as new as every one of them. */
  lemma UserBookingsAreLiveAndNewestFirst(bookings: seq<BookingModel.Booking>, userId: string)
    ensures var r := GetUserBookings(bookings, userId, None);
            && r.BookingsOk?
            && (forall b :: b in r.bookings <==> b in bookings && b.user == userId && !b.isCancelled)
            && (|r.bookings| > 0 ==> forall b :: b in r.bookings ==> r.bookings[0].createdAt >= b.createdAt)
  {
    var r := GetUserBookings(bookings, userId, None).bookings;
    var live := LiveBookingsOf(bookings, userId);
    assert forall b :: b in r <==> b in multiset(live);
    if |r| > 0 {
      forall b | b in r ensures r[0].createdAt >= b.createdAt {
        var k :| 0 <= k < |r| && r[k] == b;
      }
    }
  }

  // -----------------------------------------------------------------------
  // getProfile

  datatype ProfileReply =
    | ProfileFound(user: UserModel.ProfileView)
    | ProfileNotFound(status: int, message: string)
    | ProfileFailed(status: int, message: string)

  const UserNotFound := "User not found"
  const FetchFailed := "Failed to fetch profile"

  /** `getProfile` for the user the guard attached; `lookupThrows` stands
      for the lookup failing. */
  function GetProfile(users: map<string, UserModel.User>, userId: string, lookupThrows: bool): (r: ProfileReply)
    ensures lookupThrows ==> r == ProfileFailed(500, FetchFailed)
    ensures !lookupThrows && userId !in users ==> r == ProfileNotFound(404, UserNotFound)
    ensures !lookupThrows && userId in users ==> r.ProfileFound? && r.user == UserModel.WithoutPassword(users[userId])
  {
    if lookupThrows then ProfileFailed(500, FetchFailed)
    else if userId !in users then ProfileNotFound(404, UserNotFound)
    else ProfileFound(UserModel.WithoutPassword(users[userId]))
  }

  // -----------------------------------------------------------------------
  // updateProfile

  /** The fields a profile update may set, in the handler's order. */
  const ProfileFields := ["name", "city", "phone", "favoriteGenres", "preferredLanguage", "gender", "about", "image"]

  /** The fields that are never set by an update. */
  const ProtectedFields := {"_id", "email", "password", "role"}

  lemma WhitelistExcludesProtectedFields()
    ensures forall f :: f in ProfileFields ==> f !in ProtectedFields
  {
  }

  /** The `updateData` object: the whitelisted fields the body defines,
      with the body's values. */
  function UpdateData(body: map<string, string>): (data: map<string, string>)
    ensures data.Keys == (set f | f in ProfileFields && f in body)
    ensures forall f :: f in data ==> data[f] == body[f]
  {
    map f | f in ProfileFields && f in body :: body[f]
  }

  /** `fields.forEach(...)`: copies each whitelisted field the body defines. */
  method BuildUpdateData(body: map<string, string>) returns (updateData: map<string, string>)
    ensures updateData == UpdateData(body)
    ensures forall f :: f in updateData ==> f !in ProtectedFields
  {
    updateData := map[];
    var i := 0;
    while i < |ProfileFields|
      invariant 0 <= i <= |ProfileFields|
      invariant updateData.Keys == (set f | f in ProfileFields[..i] && f in body)
      invariant forall f :: f in updateData ==> updateData[f] == body[f]
    {
      var field := ProfileFields[i];
      if field in body {
        updateData := updateData[field := body[field]];
      }
      assert ProfileFields[..i + 1] == ProfileFields[..i] + [field];
      i := i + 1;
    }
    assert ProfileFields[..i] == ProfileFields;
    WhitelistExcludesProtectedFields();
  }

  /** The new value of an optional field under `$set`. */
  function SetOptional(old_: Option<string>, data: map<string, string>, field: string): (v: Option<string>)
    ensures field in data ==> v == Some(data[field])
    ensures field !in data ==> v == old_
  {
    if field in data then Some(data[field]) else old_
  }

  /** `{ $set: updateData }` on a stored user at time `now`: the listed
      fields take the new values, `updatedAt` becomes `now`, and everything
      else is kept. */
  function ApplySet(u: UserModel.User, data: map<string, string>, now: int): (v: UserModel.User)
    requires forall f :: f in data ==> f in ProfileFields
    ensures v.id == u.id && v.email == u.email && v.password == u.password && v.role == u.role
    ensures v.createdAt == u.createdAt && v.updatedAt == now
    ensures v.name == (if "name" in data then data["name"] else u.name)
    ensures v.image == (if "image" in data then data["image"] else u.image)
    ensures v.city == SetOptional(u.city, data, "city") && v.phone == SetOptional(u.phone, data, "phone")
    ensures v.favoriteGenres == SetOptional(u.favoriteGenres, data, "favoriteGenres")
    ensures v.preferredLanguage == SetOptional(u.preferredLanguage, data, "preferredLanguage")
    ensures v.gender == SetOptional(u.gender, data, "gender") && v.about == SetOptional(u.about, data, "about")
  {
    u.(
      name := if "name" in data then data["name"] else u.name,
      image := if "image" in data then data["image"] else u.image,
      city := SetOptional(u.city, data, "city"),
      phone := SetOptional(u.phone, data, "phone"),
      favoriteGenres := SetOptional(u.favoriteGenres, data, "favoriteGenres"),
      preferredLanguage := SetOptional(u.preferredLanguage, data, "preferredLanguage"),
      gender := SetOptional(u.gender, data, "gender"),
      about := SetOptional(u.about, data, "about"),
      updatedAt := now)
  }

  /** With an empty body only `updatedAt` moves. */
  lemma EmptyUpdateOnlyTouchesTimestamp(u: UserModel.User, now: int)
    ensures ApplySet(u, UpdateData(map[]), now) == u.(updatedAt := now)
  {
    assert UpdateData(map[]) == map[];
  }

  datatype UpdateReply =
    | Updated(message: string, user: Option<UserModel.ProfileView>)
    | UpdateFailed(status: int, message: string)

  const UpdatedMessage := "Profile updated successfully"
  const UpdateFailedMessage := "Failed to update profile"

  /** `updateProfile` for the user the guard attached, at time `now`;
      `updateThrows` stands for `findByIdAndUpdate` failing, which leaves
      the store as it was. A user that no longer exists gives a success
      answer with a null user. */
  method UpdateProfile(db: UserModel.UserCollection, userId: string, body: map<string, string>, now: int, updateThrows: bool)
    returns (reply: UpdateReply)
    requires db.Valid()
    modifies db
    ensures db.Valid()
    ensures updateThrows ==> db.users == old(db.users) && reply == UpdateFailed(500, UpdateFailedMessage)
    ensures !updateThrows && userId !in old(db.users) ==> db.users == old(db.users) && reply == Updated(UpdatedMessage, None)
    ensures !updateThrows && userId in old(db.users) ==>
              && db.users == old(db.users)[userId := ApplySet(old(db.users)[userId], UpdateData(body), now)]
              && reply == Updated(UpdatedMessage, Some(UserModel.WithoutPassword(db.users[userId])))
  {
    var updateData := BuildUpdateData(body);
    if updateThrows {
      return UpdateFailed(500, UpdateFailedMessage);
    }
    if userId !in db.users {
      return Updated(UpdatedMessage, None);
    }
    var updated := ApplySet(db.users[userId], updateData, now);
    db.users := db.users[userId := updated];
    reply := Updated(UpdatedMessage, Some(UserModel.WithoutPassword(updated)));
  }

  /** Whatever the body holds, an update never changes a user's `_id`,
      e-mail, password, role or creation time, nor any other user, and
      a whitelisted field the body leaves out keeps its value. */
  lemma UpdateCannotTouchCredentials(users: map<string, UserModel.User>, userId: string, body: map<string, string>, now: int)
    requires userId in users
    ensures var after := users[userId := ApplySet(users[userId], UpdateData(body), now)];
            && after.Keys == users.Keys
            && (forall k :: k in users && k != userId ==> after[k] == users[k])
            && after[userId].id == users[userId].id
            && after[userId].email == users[userId].email
            && after[userId].password == users[userId].password
            && after[userId].role == users[userId].role
            && after[userId].createdAt == users[userId].createdAt
            && ("name" !in body ==> after[userId].name == users[userId].name)
            && ("city" !in body ==> after[userId].city == users[userId].city)
            && ("image" !in body ==> after[userId].image == users[userId].image)
  {
  }

  /** A body whose only whitelisted field is the name changes only the name
      (and `updatedAt`), whatever else it holds. */
  lemma OnlyNameIsApplied(u: UserModel.User, body: map<string, string>, now: int)
    requires "name" in body
    requires forall f :: f in ProfileFields && f != "name" ==> f !in body
    ensures ApplySet(u, UpdateData(body), now) == u.(name := body["name"], updatedAt := now)
  {
    assert UpdateData(body).Keys == {"name"};
  }

  /** A body that tries to set the e-mail, password, role or `_id` alongside
      a name changes only the name (and `updatedAt`). */
  lemma ProtectedFieldsAreIgnored(u: UserModel.User, name: string, email: string, role: string, now: int)
    ensures var body := map["name" := name, "email" := email, "role" := role, "password" := "x", "_id" := email];
            ApplySet(u, UpdateData(body), now) == u.(name := name, updatedAt := now)
  {
    var body := map["name" := name, "email" := email, "role" := role, "password" := "x", "_id" := email];
    assert body.Keys == {"name"} + ProtectedFields;
    WhitelistExcludesProtectedFields();
    OnlyNameIsApplied(u, body, now);
  }
}
