/** The route guards (server/middleware/auth.js): `protectUser` and
    `protectAdmin` read the token from the Authorization header, look the
    user up by it, and either reject the request or attach the user and
    pass it on. */
module Auth {
  import opened Wrappers
  import opened Strings
  import UserModel

  const BearerPrefix := "Bearer "

  const NoToken := "No token provided"
  const UnknownUser := "Invalid token or user not found"
  const AdminRequired := "Admin access required"
  const AuthServerError := "Server error in auth"
  const AdminRole := "admin"

  /** The two header entries the guards read. */
  datatype Headers = Headers(authorization: Option<string>, capitalized: Option<string>)

  /** `req.headers.authorization || req.headers.Authorization || ''`. */
  function AuthHeader(h: Headers): (header: string)
    ensures Truthy(h.authorization) ==> header == h.authorization.value
    ensures !Truthy(h.authorization) && Truthy(h.capitalized) ==> header == h.capitalized.value
    ensures !Truthy(h.authorization) && !Truthy(h.capitalized) ==> header == ""
  {
    OrElse(h.authorization, OrElse(h.capitalized, ""))
  }

  /** The token of a header: after "Bearer ", the second piece of the
      header split at spaces; otherwise the whole header. So the token is
      the text after "Bearer " up to the next space. */
  function BearerToken(header: string): (token: string)
    ensures StartsWith(header, BearerPrefix) ==> token == TakeUntil(header[|BearerPrefix|..], ' ')
    ensures !StartsWith(header, BearerPrefix) ==> token == header
  {
    if StartsWith(header, BearerPrefix) then
      var rest := header[|BearerPrefix|..];
      assert header == "Bearer" + [' '] + rest;
      SplitAtFirst("Bearer", rest, ' ');
      SplitFirstIsTakeUntil(rest, ' ');
      Split(header, ' ')[1]
    else header
  }

  /** The guards' answer: an error response with its status, or the user
      attached to the request and `next()` called. */
  datatype Decision = Reject(status: int, message: string) | Next(user: UserModel.User)

  /** The checks both guards share, up to and including the lookup;
      `lookupThrows` stands for `User.findById` failing. */
  function Authenticate(users: map<string, UserModel.User>, h: Headers, lookupThrows: bool): (d: Decision)
    ensures d.Next? ==> BearerToken(AuthHeader(h)) in users && d.user == users[BearerToken(AuthHeader(h))]
    ensures BearerToken(AuthHeader(h)) != "" && !lookupThrows && BearerToken(AuthHeader(h)) !in users
            ==> d == Reject(401, UnknownUser)
  {
    var token := BearerToken(AuthHeader(h));
    if token == "" then Reject(401, NoToken)
    else if lookupThrows then Reject(500, AuthServerError)
    else if token !in users then Reject(401, UnknownUser)
    else Next(users[token])
  }

  /** `protectUser`: the shared checks and nothing more, so it never
      answers 403. */
  function ProtectUser(users: map<string, UserModel.User>, h: Headers, lookupThrows: bool): (d: Decision)
    ensures d.Next? <==> BearerToken(AuthHeader(h)) != "" && !lookupThrows && BearerToken(AuthHeader(h)) in users
    ensures d.Reject? ==> d.status == 401 || d.status == 500
  {
    Authenticate(users, h, lookupThrows)
  }

  /** `protectAdmin`: as `protectUser`, then 403 unless the role is "admin". */
  function ProtectAdmin(users: map<string, UserModel.User>, h: Headers, lookupThrows: bool): (d: Decision)
    ensures d.Next? ==> d.user.role == AdminRole
  {
    var d := Authenticate(users, h, lookupThrows);
    if d.Next? && d.user.role != AdminRole then Reject(403, AdminRequired) else d
  }

  // -----------------------------------------------------------------------
  // Properties

  /** A request passes the user guard exactly when its token names a stored
      user and the lookup does not fail; the attached user is that user, and
      under the store's invariant the token is the user's e-mail. */
  lemma UserGuardAcceptsStoredUsers(users: map<string, UserModel.User>, h: Headers, lookupThrows: bool)
    requires UserModel.StoreInvariant(users)
    ensures var token := BearerToken(AuthHeader(h));
            && (ProtectUser(users, h, lookupThrows).Next? <==> token != "" && !lookupThrows && token in users)
            && (ProtectUser(users, h, lookupThrows).Next? ==>
                  ProtectUser(users, h, lookupThrows).user.email == token
                  && ProtectUser(users, h, lookupThrows).user.id == token)
  {
  }

  /** Every request the admin guard lets through, the user guard lets
      through with the same user; the admin guard lets through exactly the
      users the user guard accepts whose role is "admin". */
  lemma AdminGuardIsStricter(users: map<string, UserModel.User>, h: Headers, lookupThrows: bool)
    ensures ProtectAdmin(users, h, lookupThrows).Next? <==>
              ProtectUser(users, h, lookupThrows).Next? && ProtectUser(users, h, lookupThrows).user.role == AdminRole
    ensures ProtectAdmin(users, h, lookupThrows).Next? ==> ProtectAdmin(users, h, lookupThrows) == ProtectUser(users, h, lookupThrows)
  {
  }

  /** The two guards answer alike except for a found user who is not an
      admin, whom only the admin guard turns away, with 403. */
  lemma GuardsDifferOnlyOnRole(users: map<string, UserModel.User>, h: Headers, lookupThrows: bool)
    ensures ProtectUser(users, h, lookupThrows).Reject? ==> ProtectAdmin(users, h, lookupThrows) == ProtectUser(users, h, lookupThrows)
    ensures ProtectUser(users, h, lookupThrows).Next? && ProtectUser(users, h, lookupThrows).user.role != AdminRole ==>
              ProtectAdmin(users, h, lookupThrows) == Reject(403, AdminRequired)
  {
  }

  /** A missing or empty token is refused with 401 before any lookup, so a
      failing store makes no difference. */
  lemma EmptyTokenIsRefusedWithoutLookup(users: map<string, UserModel.User>, h: Headers, lookupThrows: bool)
    requires BearerToken(AuthHeader(h)) == ""
    ensures ProtectUser(users, h, lookupThrows) == Reject(401, NoToken)
    ensures ProtectAdmin(users, h, lookupThrows) == Reject(401, NoToken)
  {
  }

  /** With a token, a failing lookup answers 500 in both guards, and no
      user is let through. */
  lemma LookupFailureGives500(users: map<string, UserModel.User>, h: Headers)
    requires BearerToken(AuthHeader(h)) != ""
    ensures ProtectUser(users, h, true) == Reject(500, AuthServerError)
    ensures ProtectAdmin(users, h, true) == Reject(500, AuthServerError)
  {
  }

  /** The token is the text after "Bearer " up to the next space; a header
      without the prefix is taken whole, and "Bearer" followed by two
      spaces yields the empty token. */
  lemma BearerTokenExamples(id: string)
    requires ' ' !in id
    ensures BearerToken(BearerPrefix + id) == id
    ensures BearerToken(BearerPrefix + " " + id) == ""
    ensures !StartsWith(id, BearerPrefix) ==> BearerToken(id) == id
  {
    assert (BearerPrefix + id)[|BearerPrefix|..] == id;
    assert (BearerPrefix + " " + id)[|BearerPrefix|..] == " " + id;
    TakeUntilWhole(id, ' ');
  }

  lemma {:induction false} TakeUntilWhole(s: string, sep: char)
    requires sep !in s
    ensures TakeUntil(s, sep) == s
  {
    if |s| > 0 {
      TakeUntilWhole(s[1..], sep);
      assert s == [s[0]] + s[1..];
    }
  }

  /** The parts of an Express request the guards touch. */
  class Request {
    const headers: Headers
    /** `req.user`, set by a guard that lets the request through. */
    var user: Option<UserModel.User>
    /** Whether a guard called `next()`. */
    var nextCalled: bool

    constructor (h: Headers)
      ensures headers == h && user.None? && !nextCalled
    {
      headers, user, nextCalled := h, None, false;
    }

    /** Runs `protectUser`: on success attaches the user and calls `next()`;
        otherwise answers with the rejection, leaving the request as it was. */
    method ProtectUserGuard(users: map<string, UserModel.User>, lookupThrows: bool) returns (rejection: Option<Decision>)
      modifies this
      ensures var d := ProtectUser(users, headers, lookupThrows);
              && (d.Next? ==> user == Some(d.user) && nextCalled && rejection.None?)
              && (d.Reject? ==> user == old(user) && nextCalled == old(nextCalled) && rejection == Some(d))
    {
      var d := Authenticate(users, headers, lookupThrows);
      rejection := Settle(d);
    }

    /** Runs `protectAdmin`, likewise. */
    method ProtectAdminGuard(users: map<string, UserModel.User>, lookupThrows: bool) returns (rejection: Option<Decision>)
      modifies this
      ensures var d := ProtectAdmin(users, headers, lookupThrows);
              && (d.Next? ==> user == Some(d.user) && nextCalled && rejection.None?)
              && (d.Reject? ==> user == old(user) && nextCalled == old(nextCalled) && rejection == Some(d))
    {
      var d := Authenticate(users, headers, lookupThrows);
      if d.Next? && d.user.role != AdminRole {
        d := Reject(403, AdminRequired);
      }
      rejection := Settle(d);
    }

    method Settle(d: Decision) returns (rejection: Option<Decision>)
      modifies this
      ensures d.Next? ==> user == Some(d.user) && nextCalled && rejection.None?
      ensures d.Reject? ==> user == old(user) && nextCalled == old(nextCalled) && rejection == Some(d)
    {
      if d.Next? {
        user, nextCalled := Some(d.user), true;
        rejection := None;
      } else {
        rejection := Some(d);
      }
    }
  }
}
