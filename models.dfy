/**
 * The stored entities of models/Post.js, models/User.js and models/Interaction.js,
 * as plain values. Identifiers are the string form of the store's object ids;
 * instants are milliseconds since the epoch.
 */
module Models {

  import opened Options

  type UserId = string
  type PostId = string

  /** An id together with the display name copied when the record was made. */
  datatype Snapshot = Snapshot(id: UserId, name: string)

  /** A registered user; the store keys users by id, so the id is not repeated here. */
  datatype User = User(username: string, name: string, email: string, password: string)

  datatype Post = Post(
    id: PostId,
    title: string,
    body: string,
    expiresIn: real,
    status: string,
    expiresAt: int,
    topics: seq<string>,
    owner: Snapshot)

  /** The values the Post schema's enum admits for `status`. */
  const StatusValues: set<string> := {"live", "expired"}

  predicate IsUpperHexLetter(c: char) {
    'A' <= c <= 'F'
  }

  /** The lower-case form of a hex letter; every other character is kept. */
  function LowerHexLetter(c: char): (d: char)
    ensures !IsUpperHexLetter(d)
    ensures IsUpperHexLetter(c) ==> d as int == c as int + 32 && 'a' <= d <= 'f'
    ensures !IsUpperHexLetter(c) ==> d == c
  {
    if IsUpperHexLetter(c) then (c as int - 'A' as int + 'a' as int) as char else c
  }

  /**
   * The stored spelling of a requested object id. The store reads the hex digits
   * of an id in either case and keeps them in lower case, so "65A1" and "65a1"
   * name the same post.
   */
  function CanonicalId(s: string): (r: string)
    ensures |r| == |s|
    ensures forall i | 0 <= i < |r| :: !IsUpperHexLetter(r[i])
    ensures forall i | 0 <= i < |s| ::
      if IsUpperHexLetter(s[i]) then r[i] as int == s[i] as int + 32 else r[i] == s[i]
    ensures (forall i | 0 <= i < |s| :: !IsUpperHexLetter(s[i])) ==> r == s
  {
    seq(|s|, i requires 0 <= i < |s| => LowerHexLetter(s[i]))
  }

  /**
   * Two spellings that differ only in the case of hex letters have one stored
   * form, so they name the same post.
   */
  lemma HexCaseInsensitive(s: string, t: string)
    requires |s| == |t|
    requires forall i | 0 <= i < |s| ::
      || s[i] == t[i]
      || (IsUpperHexLetter(s[i]) && t[i] as int == s[i] as int + 32)
      || (IsUpperHexLetter(t[i]) && s[i] as int == t[i] as int + 32)
    ensures CanonicalId(s) == CanonicalId(t)
  {
  }

  datatype Kind = Like | Dislike | Comment {
    /** Likes and dislikes are votes; at most one vote per user and post is kept. */
    predicate IsVote() {
      Like? || Dislike?
    }

    /** The string the request and the store use for this kind. */
    function Name(): string {
      match this
      case Like => "like"
      case Dislike => "dislike"
      case Comment => "comment"
    }
  }

  datatype Interaction = Interaction(
    postId: PostId,
    user: Snapshot,
    kind: Kind,
    commentBody: Option<string>)

}
