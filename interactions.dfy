/**
 * The interaction-creation handler of routes/interactions.js.
 *
 * Guards run in this order, each ending the request: the body fails the
 * interaction schema (400); no post has the requested id (404); the post is
 * expired, `now > expires_at` (400); no user has the caller's id (404); the
 * caller owns the post (400). Otherwise a like or dislike first deletes one
 * prior vote of the caller on that post, and the new record is saved.
 *
 * The authenticated caller is an opaque user id, and the clock reading is the
 * parameter `now` in milliseconds.
 */
module Interactions {

  import opened Options
  import opened Validation
  import opened Models
  import opened InteractionStore

  /** A validated request: the post id in its stored spelling, the type and the comment text. */
  datatype Request = Request(postId: PostId, kind: Kind, commentBody: Option<string>)

  function KindOf(t: string): (k: Kind)
    requires t in InteractionTypes
    ensures k.Name() == t
  {
    if t == "like" then Like else if t == "dislike" then Dislike else Comment
  }

  /** Reads the request out of a body the interaction schema accepts; the post id is cast to the stored form. */
  function ParseRequest(b: InteractionBody): (req: Request)
    requires InteractionError(b).None?
    ensures b.postId.Some? && b.postId.value.Str? && req.postId == CanonicalId(b.postId.value.s)
    ensures b.kind == Some(Str(req.kind.Name()))
    ensures b.commentBody == if req.commentBody.Some? then Some(Str(req.commentBody.value)) else None
    ensures req.commentBody.Some? <==> req.kind == Comment
    ensures req.commentBody.Some? ==> |req.commentBody.value| >= 1
  {
    Request(CanonicalId(b.postId.value.s), KindOf(b.kind.value.s),
            if b.commentBody.Some? then Some(b.commentBody.value.s) else None)
  }

  /** `Post.findById`: the post stored under `id`, if any. */
  function FindPost(posts: seq<Post>, id: PostId): (r: Option<Post>)
    ensures r.Some? ==> r.value in posts && r.value.id == id
    ensures r.None? ==> forall i | 0 <= i < |posts| :: posts[i].id != id
  {
    if posts == [] then None
    else if posts[0].id == id then Some(posts[0])
    else FindPost(posts[1..], id)
  }

  datatype Reason = Invalid(key: InteractionKey) | PostNotFound | PostExpired | UserNotFound | OwnPost

  /** The handler's reply: the saved record, or a rejection. */
  datatype Response = Saved(record: Interaction) | Rejected(reason: Reason)

  function Status(r: Response): (code: nat)
    ensures code == 200 <==> r.Saved?
    ensures code == 404 <==> r.Rejected? && (r.reason == PostNotFound || r.reason == UserNotFound)
    ensures code == 400 <==> r.Rejected? && (r.reason.Invalid? || r.reason == PostExpired || r.reason == OwnPost)
  {
    match r
    case Saved(_) => 200
    case Rejected(PostNotFound) => 404
    case Rejected(UserNotFound) => 404
    case Rejected(_) => 400
  }

  /**
   * The message sent with a domain rejection (routes/interactions.js:19, 26, 31, 37);
   * a schema failure is sent with the schema's own wording, which is not modelled.
   */
  function Message(reason: Reason): string
    requires !reason.Invalid?
  {
    match reason
    case PostNotFound => "Post not found"
    case PostExpired => "Cannot interact with expired posts"
    case UserNotFound => "User not found"
    case OwnPost => "Users cannot interact with their own posts"
  }

  /** The strict expiry test of the handler. */
  predicate Expired(post: Post, now: int) {
    now > post.expiresAt
  }

  /** The handler's reply to one request against the given posts and users. */
  function Respond(b: InteractionBody, caller: UserId, now: int,
                   posts: seq<Post>, users: map<UserId, User>): (r: Response)
    ensures r.Saved? <==>
      && InteractionError(b).None?
      && FindPost(posts, ParseRequest(b).postId).Some?
      && !Expired(FindPost(posts, ParseRequest(b).postId).value, now)
      && caller in users
      && FindPost(posts, ParseRequest(b).postId).value.owner.id != caller
    ensures r.Saved? ==>
      && b.postId.Some? && b.postId.value.Str? && r.record.postId == CanonicalId(b.postId.value.s)
      && b.kind == Some(Str(r.record.kind.Name()))
      && (r.record.commentBody.Some? <==> b.commentBody.Some?)
      && (r.record.commentBody.Some? ==> b.commentBody == Some(Str(r.record.commentBody.value)))
      && r.record.user == Snapshot(caller, users[caller].name)
      && exists i | 0 <= i < |posts| :: posts[i].id == r.record.postId && posts[i].owner.id != caller
  {
    match InteractionError(b)
    case Some(key) => Rejected(Invalid(key))
    case None =>
      var req := ParseRequest(b);
      match FindPost(posts, req.postId)
      case None => Rejected(PostNotFound)
      case Some(post) =>
        if Expired(post, now) then Rejected(PostExpired)
        else if caller !in users then Rejected(UserNotFound)
        else if post.owner.id == caller then Rejected(OwnPost)
        else Saved(Interaction(req.postId, Snapshot(caller, users[caller].name), req.kind, req.commentBody))
  }

  // ---------------------------------------------------------------------------
  // Which guard decides

  /** A body the schema rejects is answered with 400 before the stores, the caller or the clock are consulted. */
  lemma InvalidBodyDecidesFirst(b: InteractionBody, caller: UserId, now: int, posts: seq<Post>,
                                users: map<UserId, User>, caller': UserId, now': int,
                                posts': seq<Post>, users': map<UserId, User>)
    requires InteractionError(b).Some?
    ensures Respond(b, caller, now, posts, users) == Rejected(Invalid(InteractionError(b).value))
    ensures Respond(b, caller, now, posts, users) == Respond(b, caller', now', posts', users')
    ensures Status(Respond(b, caller, now, posts, users)) == 400
  {
  }

  /** A missing post is answered with 404 whatever the clock says and whoever calls. */
  lemma MissingPostDecides(b: InteractionBody, caller: UserId, now: int, posts: seq<Post>,
                           users: map<UserId, User>)
    requires InteractionError(b).None?
    requires forall i | 0 <= i < |posts| :: posts[i].id != CanonicalId(b.postId.value.s)
    ensures Respond(b, caller, now, posts, users) == Rejected(PostNotFound)
    ensures Status(Respond(b, caller, now, posts, users)) == 404
    ensures Message(Respond(b, caller, now, posts, users).reason) == "Post not found"
  {
  }

  /** An expired post is answered with 400 before the caller is looked up. */
  lemma ExpiryDecidesBeforeUser(b: InteractionBody, caller: UserId, now: int, posts: seq<Post>,
                                users: map<UserId, User>, post: Post)
    requires InteractionError(b).None?
    requires FindPost(posts, ParseRequest(b).postId) == Some(post)
    requires now > post.expiresAt
    ensures Respond(b, caller, now, posts, users) == Rejected(PostExpired)
    ensures Status(Respond(b, caller, now, posts, users)) == 400
    ensures Message(Respond(b, caller, now, posts, users).reason) == "Cannot interact with expired posts"
  {
  }

  /** The expiry test is strict: at the expiry instant itself the post still accepts interactions. */
  lemma ExpiryInstantStillOpen(b: InteractionBody, caller: UserId, posts: seq<Post>,
                               users: map<UserId, User>, post: Post)
    requires InteractionError(b).None?
    requires FindPost(posts, ParseRequest(b).postId) == Some(post)
    ensures Respond(b, caller, post.expiresAt, posts, users) != Rejected(PostExpired)
    ensures caller in users && post.owner.id != caller ==> Respond(b, caller, post.expiresAt, posts, users).Saved?
  {
  }

  /** An unknown caller on a live post is answered with 404. */
  lemma MissingUserDecides(b: InteractionBody, caller: UserId, now: int, posts: seq<Post>,
                           users: map<UserId, User>, post: Post)
    requires InteractionError(b).None?
    requires FindPost(posts, ParseRequest(b).postId) == Some(post)
    requires now <= post.expiresAt && caller !in users
    ensures Respond(b, caller, now, posts, users) == Rejected(UserNotFound)
    ensures Status(Respond(b, caller, now, posts, users)) == 404
    ensures Message(Respond(b, caller, now, posts, users).reason) == "User not found"
  {
  }

  /** The owner of a live post cannot like, dislike or comment on it. */
  lemma OwnerCannotInteract(b: InteractionBody, now: int, posts: seq<Post>,
                            users: map<UserId, User>, post: Post)
    requires InteractionError(b).None?
    requires FindPost(posts, ParseRequest(b).postId) == Some(post)
    requires now <= post.expiresAt && post.owner.id in users
    ensures Respond(b, post.owner.id, now, posts, users) == Rejected(OwnPost)
    ensures Status(Respond(b, post.owner.id, now, posts, users)) == 400
    ensures Message(Respond(b, post.owner.id, now, posts, users).reason)
            == "Users cannot interact with their own posts"
  {
  }

  /** Each domain rejection has its own message, so the message tells the client which guard fired. */
  lemma MessagesDistinguishReasons(r1: Reason, r2: Reason)
    requires !r1.Invalid? && !r2.Invalid?
    ensures Message(r1) == Message(r2) <==> r1 == r2
  {
    if r1 != r2 {
      assert Message(r1)[0] != Message(r2)[0] || |Message(r1)| != |Message(r2)|;
    }
  }

  /** A post id whose hex digits are spelled in upper case finds the same post as the stored spelling. */
  lemma AnyHexCaseFindsPost(b: InteractionBody, caller: UserId, now: int, posts: seq<Post>,
                            users: map<UserId, User>, post: Post)
    requires InteractionError(b).None?
    requires post in posts && post.id == CanonicalId(b.postId.value.s)
    ensures FindPost(posts, ParseRequest(b).postId).Some?
    ensures Respond(b, caller, now, posts, users) != Rejected(PostNotFound)
  {
  }

  // ---------------------------------------------------------------------------
  // The stores

  /** The Post, User and Interaction collections one request works on. */
  class Store {
    var posts: seq<Post>
    var users: map<UserId, User>
    var interactions: seq<Interaction>

    ghost predicate Valid()
      reads this
    {
      UniqueVotes(interactions)
    }

    constructor (posts0: seq<Post>, users0: map<UserId, User>)
      ensures Valid()
      ensures posts == posts0 && users == users0 && interactions == []
    {
      posts, users, interactions := posts0, users0, [];
      assert forall post: PostId, user: UserId :: Select([], VotesBy(post, user)) == [];
    }

    /** `router.post("/")`: one request, run to completion as one step. */
    method CreateInteraction(body: InteractionBody, caller: UserId, now: int) returns (res: Response)
      requires Valid()
      modifies this`interactions
      ensures Valid()
      ensures res == Respond(body, caller, now, posts, users)
      ensures res.Rejected? ==> interactions == old(interactions)
      ensures res.Saved? ==> interactions == Record(old(interactions), res.record)
    {
      var error := InteractionError(body);
      if error.Some? {
        return Rejected(Invalid(error.value));
      }
      var req := ParseRequest(body);
      var found := FindPost(posts, req.postId);
      if found.None? {
        return Rejected(PostNotFound);
      }
      var post := found.value;
      if now > post.expiresAt {
        return Rejected(PostExpired);
      }
      if caller !in users {
        return Rejected(UserNotFound);
      }
      var user := users[caller];
      if post.owner.id == caller {
        return Rejected(OwnPost);
      }
      if req.kind == Like || req.kind == Dislike {
        interactions := DeleteOneVote(interactions, req.postId, caller);
      }
      var record := Interaction(req.postId, Snapshot(caller, user.name), req.kind, req.commentBody);
      interactions := interactions + [record];
      RecordKeepsUniqueVotes(old(interactions), record);
      res := Saved(record);
    }
  }

}
