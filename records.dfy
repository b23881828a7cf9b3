/** The documents the controllers read and write, with the fields the controllers
    use (`friends`, `friendRequests`, `authorId`, `likes`, ...). Image buffers and
    the `imageMini` thumbnail are opaque to every rule and are not represented. */
module Records {
  import opened Common

  /** One pending incoming request: `{user, viewed}`. */
  datatype FriendRequest = FriendRequest(user: Id, viewed: bool)

  datatype User = User(
    firstName: string,
    lastName: string,
    email: string,
    password: string,
    friends: seq<Id>,
    friendRequests: seq<FriendRequest>,
    isAdmin: bool)

  datatype Post = Post(authorId: Id, content: string, likes: seq<Id>, createdAt: nat)

  datatype Comment = Comment(authorId: Id, postId: Id, content: string, likes: seq<Id>, createdAt: nat)

  /** The `ref` of a notification link. */
  datatype Ref = UserRef | PostRef | CommentRef

  datatype Link = Link(linkId: Id, ref: Ref)

  datatype Notification = Notification(
    userId: Id,
    links: seq<Link>,
    content: string,
    viewed: bool,
    createdAt: nat)

  /** `${firstName} ${lastName}`, as the notification texts spell a user. */
  function FullName(u: User): string {
    u.firstName + " " + u.lastName
  }
}
