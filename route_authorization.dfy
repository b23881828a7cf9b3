/** The two middlewares that mark the authenticated user as the owner of a
    `/users/...` route. Both write a flag on the request's user object in place
    and always hand over to the next handler. */
module RouteAuthorization {
  import opened Common

  /** The `req.user` object of one request: the authenticated id and the two
      owner flags the middlewares write. */
  class RequestUser {
    const id: Id
    const isAdmin: bool
    var userRouteAuthorized: bool
    var isAuthorized: bool

    /** A user as the authentication strategy loads it: neither flag set. */
    constructor(id: Id, isAdmin: bool)
      ensures this.id == id && this.isAdmin == isAdmin
      ensures !userRouteAuthorized && !isAuthorized
    {
      this.id := id;
      this.isAdmin := isAdmin;
      userRouteAuthorized := false;
      isAuthorized := false;
    }

    /** `userRouteAuthorize`: the flag becomes exactly "the route's `userId` is
        the caller", whatever it was before, so a second run changes nothing. */
    method UserRouteAuthorize(paramsUserId: Id)
      modifies this
      ensures userRouteAuthorized == (id == paramsUserId)
      ensures isAuthorized == old(isAuthorized)
    {
      if id == paramsUserId {
        userRouteAuthorized := true;
      } else {
        userRouteAuthorized := false;
      }
    }

    /** `authorizeUserRoute`: sets `isAuthorized` when the route's `id`
        parameter is the caller and never clears it. The parameter is `None`
        on a route mounted with `:userId`, where the flag is left as it was;
        and the flag it writes is not the one the controllers read. */
    method AuthorizeUserRoute(paramsId: Option<Id>)
      modifies this
      ensures isAuthorized == (old(isAuthorized) || paramsId == Some(id))
      ensures userRouteAuthorized == old(userRouteAuthorized)
    {
      if paramsId == Some(id) {
        isAuthorized := true;
      }
    }
  }

  /** Under the `:userId` mount the older middleware never grants ownership: a
      fresh request user stays unauthorized on both flags. */
  method OlderMiddlewareUnderUserIdMount(callerId: Id, isAdmin: bool) returns (granted: bool)
    ensures !granted
  {
    var u := new RequestUser(callerId, isAdmin);
    u.AuthorizeUserRoute(None);
    granted := u.userRouteAuthorized || u.isAuthorized;
  }

  /** Running `userRouteAuthorize` twice leaves the flag as one run does, for
      either starting value. */
  method UserRouteAuthorizeTwice(u: RequestUser, paramsUserId: Id) returns (once: bool, twice: bool)
    modifies u
    ensures once == twice == (u.id == paramsUserId)
  {
    u.UserRouteAuthorize(paramsUserId);
    once := u.userRouteAuthorized;
    u.UserRouteAuthorize(paramsUserId);
    twice := u.userRouteAuthorized;
  }
}
