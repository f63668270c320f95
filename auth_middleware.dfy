/** The admin service's two route guards: `protect`, which reads a bearer
    token from the authorization header and attaches the user it names,
    and `admin`, which lets only admins through. Token verification is a
    parameter (`verify` answers the user id a token carries, or nothing
    when verification throws); the user lookup is the collection itself,
    with a flag for a lookup that throws. */
module AuthMiddleware {
  import opened Js
  import opened UserSchema

  /** A guard either calls `next` with the request's user (possibly null)
      or ends the request with a status and message. */
  datatype Gate = Next(user: Option<PublicUser>) | Reject(status: int, message: string)

  const NoTokenMessage: string := "Not authorized, no token"
  const NotAuthorizedMessage: string := "Not authorized"
  const AdminsOnlyMessage: string := "Access denied: Admins only"

  /** `header.split(' ')[1]`: the second space-separated piece, if there is one. */
  function BearerToken(header: string): Option<string> {
    var pieces := Split(header);
    if |pieces| >= 2 then Some(pieces[1]) else None
  }

  /** protect. Without a header starting with `Bearer` the request is
      refused with "no token"; inside that branch every failure (no second
      piece, an empty or invalid token, a lookup that throws) is refused
      with "Not authorized"; a verified token calls `next` with the user it
      names, or with no user when that user no longer exists. */
  function Protect(header: Option<string>, verify: string -> Option<string>,
                   users: map<string, UserDoc>, lookupThrows: bool): (g: Gate)
    ensures !Truthy(header) || !StartsWith(header.value, "Bearer") ==> g == Reject(401, NoTokenMessage)
    ensures Truthy(header) && StartsWith(header.value, "Bearer") && g.Reject? ==> g == Reject(401, NotAuthorizedMessage)
    ensures g.Next? <==>
      Truthy(header) && StartsWith(header.value, "Bearer")
      && Truthy(BearerToken(header.value)) && verify(BearerToken(header.value).value).Some? && !lookupThrows
    ensures g.Next? ==>
      var id := verify(BearerToken(header.value).value).value;
      g.user == if id in users then Some(Public(users[id])) else None
  {
    if !Truthy(header) || !StartsWith(header.value, "Bearer") then
      Reject(401, NoTokenMessage)
    else
      var token := BearerToken(header.value);
      // jwt.verify throws on an absent or empty token
      if !Truthy(token) then Reject(401, NotAuthorizedMessage)
      else match verify(token.value)
        case None => Reject(401, NotAuthorizedMessage)
        case Some(id) =>
          if lookupThrows then Reject(401, NotAuthorizedMessage)
          else Next(if id in users then Some(Public(users[id])) else None)
  }

  /** admin: `next` exactly when there is a user and its role is `admin`. */
  function Admin(user: Option<PublicUser>): (g: Gate)
    ensures g.Next? <==> user.Some? && user.value.role == AdminRole
    ensures g.Next? ==> g.user == user
    ensures g.Reject? ==> g == Reject(403, AdminsOnlyMessage)
  {
    if user.Some? && user.value.role == AdminRole then Next(user) else Reject(403, AdminsOnlyMessage)
  }

  /** The token is the word after the first space, whatever space-free
      word comes before it: `Bearer <t>` and also `BearerX <t>`. */
  lemma {:induction false} BearerTokenAfterFirstWord(word: string, t: string)
    requires NoSpace(word) && NoSpace(t)
    ensures BearerToken(word + " " + t) == Some(t)
  {
    var rest := " " + t;
    SplitPrefix(word, rest);
    SplitPrefix(t, "");
    assert t + "" == t;
    assert rest[1..] == t;
    assert word + " " + t == word + rest;
  }

  /** A header that is exactly `Bearer` has no second piece and is refused
      as unauthorised, not as missing. */
  lemma {:induction false} BareBearerRefused(verify: string -> Option<string>, users: map<string, UserDoc>, lookupThrows: bool)
    ensures Protect(Some("Bearer"), verify, users, lookupThrows) == Reject(401, NotAuthorizedMessage)
  {
    SplitPrefix("Bearer", "");
    assert "Bearer" + "" == "Bearer";
  }

  /** A well-formed bearer header with a verified token passes `protect`
      with the user the token names, even when that user has been removed. */
  lemma {:induction false} VerifiedBearerPasses(t: string, verify: string -> Option<string>,
                                                users: map<string, UserDoc>)
    requires t != "" && NoSpace(t) && verify(t).Some?
    ensures var id := verify(t).value;
      Protect(Some("Bearer " + t), verify, users, false)
        == Next(if id in users then Some(Public(users[id])) else None)
  {
    BearerTokenAfterFirstWord("Bearer", t);
    assert "Bearer " + t == "Bearer" + " " + t;
    assert StartsWith("Bearer " + t, "Bearer");
  }

  /** A removed user is let through `protect` with no user, and then
      stopped by `admin`. */
  lemma {:induction false} RemovedUserStoppedByAdmin(t: string, verify: string -> Option<string>,
                                                     users: map<string, UserDoc>)
    requires t != "" && NoSpace(t) && verify(t).Some? && verify(t).value !in users
    ensures Protect(Some("Bearer " + t), verify, users, false) == Next(None)
    ensures Admin(None) == Reject(403, AdminsOnlyMessage)
  {
    VerifiedBearerPasses(t, verify, users);
  }
}
