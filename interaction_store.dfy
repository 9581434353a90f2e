/**
 * The Interaction collection as routes/interactions.js changes it: an ordered
 * sequence of records (storage order), a `deleteOne` that removes the first
 * record matching the vote filter { post_id, user.id, type in [like, dislike] },
 * and a `save` that appends the new record.
 */
module InteractionStore {

  import opened Models

  /** The record filters the properties below are stated with. */
  datatype Selector =
    | VotesBy(post: PostId, user: UserId)       // what the handler's deleteOne filter matches
    | OthersThanVotesBy(post: PostId, user: UserId)
    | AllBy(post: PostId, user: UserId)         // every record of one user on one post

  predicate IsVoteOf(r: Interaction, post: PostId, user: UserId) {
    r.postId == post && r.user.id == user && r.kind.IsVote()
  }

  predicate Matches(sel: Selector, r: Interaction) {
    match sel
    case VotesBy(post, user) => IsVoteOf(r, post, user)
    case OthersThanVotesBy(post, user) => !IsVoteOf(r, post, user)
    case AllBy(post, user) => r.postId == post && r.user.id == user
  }

  /** The records of `s` that `sel` matches, in storage order. */
  function Select(s: seq<Interaction>, sel: Selector): (r: seq<Interaction>)
    ensures |r| <= |s|
    ensures forall x | x in r :: x in s && Matches(sel, x)
    ensures forall x | x in s && Matches(sel, x) :: x in r
  {
    if s == [] then []
    else (if Matches(sel, s[0]) then [s[0]] else []) + Select(s[1..], sel)
  }

  lemma {:induction false} SelectConcat(a: seq<Interaction>, b: seq<Interaction>, sel: Selector)
    ensures Select(a + b, sel) == Select(a, sel) + Select(b, sel)
    decreases |a|
  {
    if a == [] {
      assert a + b == b;
    } else {
      assert (a + b)[0] == a[0] && (a + b)[1..] == a[1..] + b;
      SelectConcat(a[1..], b, sel);
    }
  }

  /** At most one like-or-dislike record per (post, user): the store's invariant. */
  ghost predicate UniqueVotes(s: seq<Interaction>) {
    forall post: PostId, user: UserId :: |Select(s, VotesBy(post, user))| <= 1
  }

  /**
   * `deleteOne` with the vote filter: the first vote of `user` on `post` is
   * removed, every other record stays, in the same order.
   */
  function DeleteOneVote(s: seq<Interaction>, post: PostId, user: UserId): (r: seq<Interaction>)
    ensures Select(s, VotesBy(post, user)) == [] ==> r == s
    ensures Select(s, VotesBy(post, user)) != [] ==>
      |r| == |s| - 1 && Select(r, VotesBy(post, user)) == Select(s, VotesBy(post, user))[1..]
    ensures Select(r, OthersThanVotesBy(post, user)) == Select(s, OthersThanVotesBy(post, user))
  {
    if s == [] then []
    else if IsVoteOf(s[0], post, user) then s[1..]
    else [s[0]] + DeleteOneVote(s[1..], post, user)
  }

  /** Removing position `i + 1` of `s` is keeping its head and removing position `i` of its tail. */
  lemma RemoveAtTail(s: seq<Interaction>, i: nat)
    requires i + 1 < |s|
    ensures s[..i + 1] + s[i + 2..] == [s[0]] + (s[1..][..i] + s[1..][i + 1..])
  {
    assert s[..i + 1] == [s[0]] + s[1..][..i];
    assert s[i + 2..] == s[1..][i + 1..];
  }

  /** A head that is not a vote, followed by `i` non-votes, makes `i + 1` non-votes. */
  lemma NoVoteBefore(s: seq<Interaction>, i: nat, post: PostId, user: UserId)
    requires i < |s| && !IsVoteOf(s[0], post, user)
    requires forall j | 0 <= j < i :: !IsVoteOf(s[1..][j], post, user)
    ensures forall j | 0 <= j < i + 1 :: !IsVoteOf(s[j], post, user)
  {
    forall j | 0 < j < i + 1 ensures !IsVoteOf(s[j], post, user) {
      assert s[j] == s[1..][j - 1];
    }
  }

  /** The record `deleteOne` removes is the pair's first vote in storage order, and only it. */
  lemma {:induction false} DeleteOneVoteRemovesFirstVote(s: seq<Interaction>, post: PostId, user: UserId)
    requires exists k | 0 <= k < |s| :: IsVoteOf(s[k], post, user)
    ensures exists i | 0 <= i < |s| :: && IsVoteOf(s[i], post, user)
                                       && (forall j | 0 <= j < i :: !IsVoteOf(s[j], post, user))
                                       && DeleteOneVote(s, post, user) == s[..i] + s[i + 1..]
    decreases |s|
  {
    if IsVoteOf(s[0], post, user) {
      assert DeleteOneVote(s, post, user) == s[..0] + s[1..];
    } else {
      var t := s[1..];
      var k :| 0 <= k < |s| && IsVoteOf(s[k], post, user);
      assert k > 0 && IsVoteOf(t[k - 1], post, user);
      DeleteOneVoteRemovesFirstVote(t, post, user);
      var i :| && 0 <= i < |t| && IsVoteOf(t[i], post, user)
               && (forall j | 0 <= j < i :: !IsVoteOf(t[j], post, user))
               && DeleteOneVote(t, post, user) == t[..i] + t[i + 1..];
      RemoveAtTail(s, i);
      NoVoteBefore(s, i, post, user);
      assert IsVoteOf(s[i + 1], post, user);
    }
  }

  /** Deleting a vote of one pair leaves the records of every other pair as they were. */
  lemma {:induction false} DeleteOneVoteSparesOtherPairs(s: seq<Interaction>, post: PostId, user: UserId,
                                                          post': PostId, user': UserId)
    requires (post', user') != (post, user)
    ensures Select(DeleteOneVote(s, post, user), AllBy(post', user')) == Select(s, AllBy(post', user'))
    ensures Select(DeleteOneVote(s, post, user), VotesBy(post', user')) == Select(s, VotesBy(post', user'))
    decreases |s|
  {
    if s != [] && !IsVoteOf(s[0], post, user) {
      var t := [s[0]] + DeleteOneVote(s[1..], post, user);
      assert t[0] == s[0] && t[1..] == DeleteOneVote(s[1..], post, user);
      DeleteOneVoteSparesOtherPairs(s[1..], post, user, post', user');
    }
  }

  /**
   * One successful request: for a like or dislike, delete one prior vote of the
   * same user on the same post, then append; for a comment, only append.
   */
  function Record(s: seq<Interaction>, rec: Interaction): (r: seq<Interaction>)
    ensures rec in r && r[|r| - 1] == rec
  {
    if rec.kind.IsVote() then DeleteOneVote(s, rec.postId, rec.user.id) + [rec]
    else s + [rec]
  }

  /** A vote replaces the pair's prior vote: the new record is the pair's only vote. */
  lemma VoteReplacesPrior(s: seq<Interaction>, rec: Interaction)
    requires rec.kind.IsVote()
    requires |Select(s, VotesBy(rec.postId, rec.user.id))| <= 1
    ensures Select(Record(s, rec), VotesBy(rec.postId, rec.user.id)) == [rec]
    ensures Select(Record(s, rec), OthersThanVotesBy(rec.postId, rec.user.id))
            == Select(s, OthersThanVotesBy(rec.postId, rec.user.id))
    ensures |Record(s, rec)| == |s| + 1 - |Select(s, VotesBy(rec.postId, rec.user.id))|
  {
    var sel := VotesBy(rec.postId, rec.user.id);
    var d := DeleteOneVote(s, rec.postId, rec.user.id);
    SelectConcat(d, [rec], sel);
    SelectConcat(d, [rec], OthersThanVotesBy(rec.postId, rec.user.id));
    assert Select([rec], sel) == [rec];
  }

  /** A comment removes nothing: every vote is kept and the comment is appended. */
  lemma CommentOnlyAppends(s: seq<Interaction>, rec: Interaction, post: PostId, user: UserId)
    requires rec.kind == Comment
    ensures Select(Record(s, rec), VotesBy(post, user)) == Select(s, VotesBy(post, user))
    ensures Select(Record(s, rec), OthersThanVotesBy(post, user))
            == Select(s, OthersThanVotesBy(post, user)) + [rec]
    ensures |Record(s, rec)| == |s| + 1
  {
    SelectConcat(s, [rec], VotesBy(post, user));
    SelectConcat(s, [rec], OthersThanVotesBy(post, user));
    assert Select([rec], VotesBy(post, user)) == [];
    assert Select([rec], OthersThanVotesBy(post, user)) == [rec];
  }

  /** A record leaves the records of every other (post, user) pair untouched. */
  lemma RecordSparesOtherPairs(s: seq<Interaction>, rec: Interaction, post: PostId, user: UserId)
    requires (post, user) != (rec.postId, rec.user.id)
    ensures Select(Record(s, rec), AllBy(post, user)) == Select(s, AllBy(post, user))
    ensures Select(Record(s, rec), VotesBy(post, user)) == Select(s, VotesBy(post, user))
  {
    var base := if rec.kind.IsVote() then DeleteOneVote(s, rec.postId, rec.user.id) else s;
    if rec.kind.IsVote() {
      DeleteOneVoteSparesOtherPairs(s, rec.postId, rec.user.id, post, user);
    }
    SelectConcat(base, [rec], AllBy(post, user));
    SelectConcat(base, [rec], VotesBy(post, user));
    assert Select([rec], AllBy(post, user)) == [];
    assert Select([rec], VotesBy(post, user)) == [];
  }

  /** Recording keeps the at-most-one-vote invariant. */
  lemma RecordKeepsUniqueVotes(s: seq<Interaction>, rec: Interaction)
    requires UniqueVotes(s)
    ensures UniqueVotes(Record(s, rec))
  {
    forall post: PostId, user: UserId
      ensures |Select(Record(s, rec), VotesBy(post, user))| <= 1
    {
      if (post, user) != (rec.postId, rec.user.id) {
        RecordSparesOtherPairs(s, rec, post, user);
      } else if rec.kind.IsVote() {
        VoteReplacesPrior(s, rec);
      } else {
        CommentOnlyAppends(s, rec, post, user);
      }
    }
  }

  /** Two votes in a row by the same user on the same post leave only the second. */
  lemma LastVoteWins(s: seq<Interaction>, first: Interaction, second: Interaction)
    requires UniqueVotes(s)
    requires first.kind.IsVote() && second.kind.IsVote()
    requires first.postId == second.postId && first.user.id == second.user.id
    ensures Select(Record(Record(s, first), second), VotesBy(second.postId, second.user.id)) == [second]
  {
    RecordKeepsUniqueVotes(s, first);
    VoteReplacesPrior(Record(s, first), second);
  }

}
