/**
 * The listing handler of routes/posts.js: fetch every stored post, keep those
 * whose `status` equals "Live". The comparison is case-sensitive, while the
 * Post schema only admits "live" and "expired"; ListLive below is the handler
 * as written, ListLiveIntended the lower-case comparison it evidently meant.
 * Both are functions of the fetched sequence, so listing changes no stored post.
 */
module Posts {

  import opened Models

  /** `a` is obtained from `b` by deleting elements, keeping the order of the rest. */
  ghost predicate IsSubsequence<T>(a: seq<T>, b: seq<T>)
    decreases |b|
  {
    a == [] || (b != [] && (IsSubsequence(a, b[1..]) || (a[0] == b[0] && IsSubsequence(a[1..], b[1..]))))
  }

  /** The posts of `ps` whose status is exactly `status`, in their stored order. */
  function WithStatus(ps: seq<Post>, status: string): (r: seq<Post>)
    ensures |r| <= |ps|
    ensures forall p | p in r :: p in ps && p.status == status
    ensures forall p | p in ps && p.status == status :: p in r
  {
    if ps == [] then []
    else (if ps[0].status == status then [ps[0]] else []) + WithStatus(ps[1..], status)
  }

  lemma {:induction false} WithStatusKeepsOrder(ps: seq<Post>, status: string)
    ensures IsSubsequence(WithStatus(ps, status), ps)
    decreases |ps|
  {
    if ps != [] {
      var rest := WithStatus(ps[1..], status);
      WithStatusKeepsOrder(ps[1..], status);
      if ps[0].status == status {
        var r := [ps[0]] + rest;
        assert WithStatus(ps, status) == r;
        assert r[0] == ps[0] && r[1..] == rest;
      } else {
        assert WithStatus(ps, status) == rest;
      }
    }
  }

  /** routes/posts.js as written: the filter compares with "Live". */
  function ListLive(ps: seq<Post>): (r: seq<Post>)
    ensures |r| <= |ps|
    ensures forall p | p in r :: p in ps && p.status == "Live"
  {
    WithStatus(ps, "Live")
  }

  /** The filter with the lower-case status the Post schema stores. */
  function ListLiveIntended(ps: seq<Post>): (r: seq<Post>)
    ensures forall p | p in r :: p in ps && p.status == "live"
  {
    WithStatus(ps, "live")
  }

  /** The listing keeps its posts in stored order and drops none that say "Live". */
  lemma ListLiveIsOrderedFilter(ps: seq<Post>)
    ensures IsSubsequence(ListLive(ps), ps)
    ensures forall i | 0 <= i < |ps| && ps[i].status == "Live" :: ps[i] in ListLive(ps)
  {
    WithStatusKeepsOrder(ps, "Live");
  }

  /** Under the schema's status enum the listing as written is always empty. */
  lemma {:induction false} ListLiveEmptyUnderSchema(ps: seq<Post>)
    requires forall i | 0 <= i < |ps| :: ps[i].status in StatusValues
    ensures ListLive(ps) == []
    decreases |ps|
  {
    if ps != [] {
      assert ps[0].status != "Live";
      ListLiveEmptyUnderSchema(ps[1..]);
    }
  }

  /** A single schema-valid live post shows the discrepancy between the two filters. */
  lemma LowercaseLivePostNotListed(p: Post)
    requires p.status == "live"
    ensures ListLive([p]) == [] && ListLiveIntended([p]) == [p]
  {
    ListLiveEmptyUnderSchema([p]);
  }

  /** The intended listing: exactly the posts stored as "live", in stored order. */
  lemma ListLiveIntendedIsOrderedFilter(ps: seq<Post>)
    ensures IsSubsequence(ListLiveIntended(ps), ps)
    ensures forall i | 0 <= i < |ps| :: ps[i] in ListLiveIntended(ps) <==> ps[i].status == "live"
    ensures (exists i | 0 <= i < |ps| :: ps[i].status == "live") ==> ListLiveIntended(ps) != []
  {
    WithStatusKeepsOrder(ps, "live");
  }

}
