/**
 * The comment list of an anime: normalising the comments the server sends
 * (the like list and whether the signed-in user is in it), ordering them by
 * creation time (newest or oldest first, ties kept in server order), and
 * the local list updates after posting, deleting and liking a comment.
 * Timestamps are integers; parsing the server's date strings stays outside
 * the model.
 */
module Comments {

  import opened Wrappers
  import JsText
  import opened Seqs

  /** A comment as the server sends it; `likedBy` is None when it is not an array. */
  datatype RawComment = RawComment(
    id: string, commentText: string, createdAt: int, likesCount: int,
    likedBy: Option<seq<string>>)

  /** A comment as the list holds it. */
  datatype Comment = Comment(
    id: string, commentText: string, createdAt: int, likesCount: int,
    likedBy: seq<string>, likedByUser: bool)

  datatype SortOrder = Newest | Oldest

  /** toggleSortOrder. */
  function Toggle(o: SortOrder): (r: SortOrder)
    ensures r != o
  {
    if o == Newest then Oldest else Newest
  }

  lemma ToggleTwice(o: SortOrder)
    ensures Toggle(Toggle(o)) == o
  {
  }

  // ---------------------------------------------------------------------
  // Normalisation
  // ---------------------------------------------------------------------

  /**
   * A non-array like list becomes empty, and the comment is liked by the
   * user exactly when a user is signed in and in the like list.
   */
  function Normalise(c: RawComment, userId: Option<string>): (r: Comment)
    ensures r.id == c.id && r.commentText == c.commentText
    ensures r.createdAt == c.createdAt && r.likesCount == c.likesCount
    ensures r.likedBy == (if c.likedBy.Some? then c.likedBy.value else [])
    ensures r.likedByUser <==> userId.Some? && c.likedBy.Some? && userId.value in c.likedBy.value
  {
    var likedBy := c.likedBy.GetOr([]);
    Comment(c.id, c.commentText, c.createdAt, c.likesCount, likedBy,
            userId.Some? && userId.value in likedBy)
  }

  function NormaliseAll(cs: seq<RawComment>, userId: Option<string>): (r: seq<Comment>)
    ensures |r| == |cs|
    ensures forall i :: 0 <= i < |cs| ==> r[i] == Normalise(cs[i], userId)
  {
    if cs == [] then [] else [Normalise(cs[0], userId)] + NormaliseAll(cs[1..], userId)
  }

  // ---------------------------------------------------------------------
  // Ordering
  // ---------------------------------------------------------------------

  /**
   * The comparators `b.createdAt - a.createdAt` (newest) and
   * `a.createdAt - b.createdAt` (oldest) both order by this key ascending.
   */
  function Key(c: Comment, o: SortOrder): int {
    if o == Newest then -c.createdAt else c.createdAt
  }

  predicate SortedBy(s: seq<Comment>, o: SortOrder) {
    forall i, j :: 0 <= i < j < |s| ==> Key(s[i], o) <= Key(s[j], o)
  }

  /** The comments whose key is k, in list order. */
  function WithKey(s: seq<Comment>, o: SortOrder, k: int): seq<Comment> {
    if s == [] then []
    else WithKey(s[..|s| - 1], o, k) + (if Key(s[|s| - 1], o) == k then [s[|s| - 1]] else [])
  }

  /**
   * Insert x behind the last element whose key does not exceed x's, scanning
   * from the end: one step of insertion sort.
   */
  function InsertRight(s: seq<Comment>, x: Comment, o: SortOrder): (r: seq<Comment>)
    ensures |r| == |s| + 1
  {
    if s == [] || Key(s[|s| - 1], o) <= Key(x, o) then s + [x]
    else InsertRight(s[..|s| - 1], x, o) + [s[|s| - 1]]
  }

  /** The stable sort by key, as insertion sort builds it. */
  function SortSpec(s: seq<Comment>, o: SortOrder): (r: seq<Comment>)
    ensures |r| == |s|
  {
    if s == [] then [] else InsertRight(SortSpec(s[..|s| - 1], o), s[|s| - 1], o)
  }

  lemma WithKeyAppend(a: seq<Comment>, b: seq<Comment>, o: SortOrder, k: int)
    ensures WithKey(a + b, o, k) == WithKey(a, o, k) + WithKey(b, o, k)
    decreases |b|
  {
    if b == [] {
      assert a + b == a;
    } else {
      assert (a + b)[..|a + b| - 1] == a + b[..|b| - 1];
      WithKeyAppend(a, b[..|b| - 1], o, k);
    }
  }

  lemma {:induction false} InsertRightPerm(s: seq<Comment>, x: Comment, o: SortOrder)
    ensures multiset(InsertRight(s, x, o)) == multiset(s) + multiset{x}
    decreases |s|
  {
    if s != [] && Key(s[|s| - 1], o) > Key(x, o) {
      InsertRightPerm(s[..|s| - 1], x, o);
      assert s == s[..|s| - 1] + [s[|s| - 1]];
    }
  }

  /** A sorted list stays sorted with an element behind it whose key bounds all of its own. */
  lemma SortedSnoc(t: seq<Comment>, y: Comment, o: SortOrder)
    requires SortedBy(t, o)
    requires forall i :: 0 <= i < |t| ==> Key(t[i], o) <= Key(y, o)
    ensures SortedBy(t + [y], o)
  {
    var u := t + [y];
    forall i, j | 0 <= i < j < |u| ensures Key(u[i], o) <= Key(u[j], o) {
      if j < |t| {
        assert u[i] == t[i] && u[j] == t[j];
      } else {
        assert u[i] == t[i];
      }
    }
  }

  lemma {:induction false} InsertRightSorted(s: seq<Comment>, x: Comment, o: SortOrder)
    requires SortedBy(s, o)
    ensures SortedBy(InsertRight(s, x, o), o)
    decreases |s|
  {
    if s == [] || Key(s[|s| - 1], o) <= Key(x, o) {
      SortedSnoc(s, x, o);
    } else {
      var init := s[..|s| - 1];
      var last := s[|s| - 1];
      assert SortedBy(init, o);
      InsertRightSorted(init, x, o);
      InsertRightPerm(init, x, o);
      var t := InsertRight(init, x, o);
      forall i | 0 <= i < |t| ensures Key(t[i], o) <= Key(last, o) {
        assert t[i] in multiset(t);
        if t[i] != x {
          assert t[i] in multiset(init);
          var m :| 0 <= m < |init| && init[m] == t[i];
          assert s[m] == init[m];
        }
      }
      SortedSnoc(t, last, o);
    }
  }

  lemma {:induction false} InsertRightWithKey(s: seq<Comment>, x: Comment, o: SortOrder, k: int)
    ensures WithKey(InsertRight(s, x, o), o, k) == WithKey(s, o, k) + (if Key(x, o) == k then [x] else [])
    decreases |s|
  {
    if s == [] || Key(s[|s| - 1], o) <= Key(x, o) {
      WithKeyAppend(s, [x], o, k);
      assert WithKey([x], o, k) == (if Key(x, o) == k then [x] else []) by {
        assert [x][..0] == [];
      }
    } else {
      var init := s[..|s| - 1];
      var last := s[|s| - 1];
      InsertRightWithKey(init, x, o, k);
      var t := InsertRight(init, x, o);
      assert (t + [last])[..|t + [last]| - 1] == t;
    }
  }

  /** The sort is ordered by key: non-increasing creation time under Newest, non-decreasing otherwise. */
  lemma {:induction false} SortSpecSorted(s: seq<Comment>, o: SortOrder)
    ensures SortedBy(SortSpec(s, o), o)
    decreases |s|
  {
    if s != [] {
      var init, last := s[..|s| - 1], s[|s| - 1];
      var t := SortSpec(init, o);
      assert SortSpec(s, o) == InsertRight(t, last, o);
      SortSpecSorted(init, o);
      InsertRightSorted(t, last, o);
    }
  }

  /** The sort is a permutation: it keeps every comment, as often as it occurs. */
  lemma {:induction false} SortSpecPerm(s: seq<Comment>, o: SortOrder)
    ensures multiset(SortSpec(s, o)) == multiset(s)
    decreases |s|
  {
    if s != [] {
      var init, last := s[..|s| - 1], s[|s| - 1];
      var t := SortSpec(init, o);
      assert SortSpec(s, o) == InsertRight(t, last, o);
      SortSpecPerm(init, o);
      InsertRightPerm(t, last, o);
      assert s == init + [last];
      assert multiset(s) == multiset(init) + multiset{last};
    }
  }

  /** The sort is stable: the comments sharing a timestamp keep their relative order. */
  lemma {:induction false} SortSpecStable(s: seq<Comment>, o: SortOrder, k: int)
    ensures WithKey(SortSpec(s, o), o, k) == WithKey(s, o, k)
    decreases |s|
  {
    if s != [] {
      SortSpecStable(s[..|s| - 1], o, k);
      InsertRightWithKey(SortSpec(s[..|s| - 1], o), s[|s| - 1], o, k);
    }
  }

  /** The key order in terms of creation time. */
  lemma SortedByCreation(s: seq<Comment>, o: SortOrder)
    requires SortedBy(s, o)
    ensures o == Newest ==> forall i, j :: 0 <= i < j < |s| ==> s[i].createdAt >= s[j].createdAt
    ensures o == Oldest ==> forall i, j :: 0 <= i < j < |s| ==> s[i].createdAt <= s[j].createdAt
  {
    if o == Newest {
      forall i, j | 0 <= i < j < |s| ensures s[i].createdAt >= s[j].createdAt {
        assert Key(s[i], o) <= Key(s[j], o);
      }
    }
  }

  /**
   * `fetchedComments.sort(comparator)` in place. The loop inserts a[i] into
   * the sorted prefix a[..i], shifting the larger keys one slot to the right.
   */
  method SortComments(a: array<Comment>, o: SortOrder)
    modifies a
    ensures a[..] == SortSpec(old(a[..]), o)
  {
    ghost var input := a[..];
    var i := 0;
    while i < a.Length
      invariant 0 <= i <= a.Length
      invariant a[..i] == SortSpec(input[..i], o)
      invariant forall k :: i <= k < a.Length ==> a[k] == input[k]
    {
      ghost var next := input[..i + 1];
      assert next[..i] == input[..i] && next[i] == input[i];
      assert SortSpec(next, o) == InsertRight(SortSpec(input[..i], o), input[i], o);
      assert a[i] == input[i];
      InsertAt(a, i, o);
      assert a[..i + 1] == SortSpec(next, o);
      i := i + 1;
    }
    assert a[..] == a[..a.Length];
    assert input == input[..a.Length];
  }

  /**
   * The inner loop of the sort: insert a[i] into the sorted prefix a[..i]
   * by shifting the larger keys one slot to the right; a[i + 1..] is kept.
   */
  method InsertAt(a: array<Comment>, i: int, o: SortOrder)
    requires 0 <= i < a.Length
    modifies a
    ensures a[..i + 1] == InsertRight(old(a[..i]), old(a[i]), o)
    ensures forall k :: i < k < a.Length ==> a[k] == old(a[k])
  {
    ghost var prefix := a[..i];
    var x := a[i];
    var j := i;
    while j > 0 && Key(a[j - 1], o) > Key(x, o)
      invariant 0 <= j <= i
      invariant forall k :: 0 <= k < j ==> a[k] == prefix[k]
      invariant forall k :: j < k <= i ==> a[k] == prefix[k - 1]
      invariant forall k :: i < k < a.Length ==> a[k] == old(a[k])
      invariant forall k :: j <= k < i ==> Key(prefix[k], o) > Key(x, o)
    {
      a[j] := a[j - 1];
      j := j - 1;
    }
    a[j] := x;
    InsertRightAt(prefix, j, x, o);
    ghost var r := prefix[..j] + [x] + prefix[j..];
    forall k | 0 <= k <= i ensures a[k] == r[k] {
      if k > j {
        assert r[k] == prefix[j..][k - j - 1];
      }
    }
    assert a[..i + 1] == r;
  }

  /**
   * Where the inner loop stops: x goes behind the last element whose key does
   * not exceed its own, when every later element's key does.
   */
  lemma {:induction false} InsertRightAt(prefix: seq<Comment>, j: int, x: Comment, o: SortOrder)
    requires 0 <= j <= |prefix|
    requires j == 0 || Key(prefix[j - 1], o) <= Key(x, o)
    requires forall k :: j <= k < |prefix| ==> Key(prefix[k], o) > Key(x, o)
    ensures InsertRight(prefix, x, o) == prefix[..j] + [x] + prefix[j..]
    decreases |prefix|
  {
    if j == |prefix| {
      assert prefix[..j] == prefix && prefix[j..] == [];
    } else {
      var init := prefix[..|prefix| - 1];
      var last := prefix[|prefix| - 1];
      assert prefix == init + [last];
      assert Key(last, o) > Key(x, o);
      assert InsertRight(prefix, x, o) == InsertRight(init, x, o) + [last];
      InsertRightAt(init, j, x, o);
      assert init[..j] == prefix[..j];
      assert init[j..] + [last] == prefix[j..];
      AppendAssoc(prefix[..j] + [x], init[j..], [last]);
    }
  }

  // ---------------------------------------------------------------------
  // Local list updates
  // ---------------------------------------------------------------------

  /** Where postComment puts the accepted comment: first under Newest, last otherwise. */
  function Inserted(comments: seq<Comment>, c: Comment, o: SortOrder): (r: seq<Comment>)
    ensures |r| == |comments| + 1
    ensures o == Newest ==> r[0] == c && r[1..] == comments
    ensures o == Oldest ==> r[|comments|] == c && r[..|comments|] == comments
  {
    if o == Newest then [c] + comments else comments + [c]
  }

  /** `comments.filter((comment) => comment._id !== commentId)`. */
  function Delete(comments: seq<Comment>, commentId: string): (r: seq<Comment>)
    ensures |r| <= |comments|
    ensures forall c :: c in r <==> c in comments && c.id != commentId
  {
    if comments == [] then []
    else (if comments[0].id != commentId then [comments[0]] else []) + Delete(comments[1..], commentId)
  }

  predicate HasId(comments: seq<Comment>, commentId: string) {
    exists i :: 0 <= i < |comments| && comments[i].id == commentId
  }

  /** Delete keeps the surviving comments in their order: it distributes over concatenation. */
  lemma {:induction false} DeleteAppend(a: seq<Comment>, b: seq<Comment>, commentId: string)
    ensures Delete(a + b, commentId) == Delete(a, commentId) + Delete(b, commentId)
    decreases |a|
  {
    if a == [] {
      assert a + b == b;
    } else {
      assert (a + b)[1..] == a[1..] + b;
      DeleteAppend(a[1..], b, commentId);
    }
  }

  /** Deleting an id no comment has changes nothing. */
  lemma {:induction false} DeleteAbsent(comments: seq<Comment>, commentId: string)
    requires !HasId(comments, commentId)
    ensures Delete(comments, commentId) == comments
    decreases |comments|
  {
    if comments != [] {
      assert !HasId(comments[1..], commentId) by {
        forall i | 0 <= i < |comments[1..]| ensures comments[1..][i].id != commentId {
          assert comments[1..][i] == comments[i + 1];
        }
      }
      DeleteAbsent(comments[1..], commentId);
      assert comments[0].id != commentId;
    }
  }

  /** Deleting twice is deleting once. */
  lemma DeleteIdempotent(comments: seq<Comment>, commentId: string)
    ensures Delete(Delete(comments, commentId), commentId) == Delete(comments, commentId)
  {
    var r := Delete(comments, commentId);
    assert !HasId(r, commentId) by {
      forall i | 0 <= i < |r| ensures r[i].id != commentId {
        assert r[i] in r;
      }
    }
    DeleteAbsent(r, commentId);
  }

  /** Posting a comment with a fresh id and then deleting it restores the list. */
  lemma PostThenDelete(comments: seq<Comment>, c: Comment, o: SortOrder)
    requires !HasId(comments, c.id)
    ensures Delete(Inserted(comments, c, o), c.id) == comments
  {
    DeleteAbsent(comments, c.id);
    DeleteAppend([c], comments, c.id);
    DeleteAppend(comments, [c], c.id);
    assert Delete([c], c.id) == [];
  }

  /** The like update: the matching comments take the server's count and flag. */
  function Liked(c: Comment, commentId: string, likesCount: int, likedByUser: bool): Comment {
    if c.id == commentId then c.(likesCount := likesCount, likedByUser := likedByUser) else c
  }

  /**
   * The setComments updater of handleLikePress: the same comments in the
   * same order, the matching ones with the new count and flag and nothing
   * else changed.
   */
  function Like(comments: seq<Comment>, commentId: string, likesCount: int, likedByUser: bool): (r: seq<Comment>)
    ensures |r| == |comments|
    ensures forall i :: 0 <= i < |r| ==>
              r[i].id == comments[i].id && r[i].commentText == comments[i].commentText &&
              r[i].createdAt == comments[i].createdAt && r[i].likedBy == comments[i].likedBy
    ensures forall i :: 0 <= i < |r| && comments[i].id == commentId ==>
              r[i].likesCount == likesCount && r[i].likedByUser == likedByUser
    ensures forall i :: 0 <= i < |r| && comments[i].id != commentId ==> r[i] == comments[i]
  {
    if comments == [] then []
    else [Liked(comments[0], commentId, likesCount, likedByUser)] + Like(comments[1..], commentId, likesCount, likedByUser)
  }

  /** The latest like reply is the one that shows. */
  lemma LikeTwice(comments: seq<Comment>, commentId: string, n1: int, b1: bool, n2: int, b2: bool)
    ensures Like(Like(comments, commentId, n1, b1), commentId, n2, b2) == Like(comments, commentId, n2, b2)
  {
  }

  /** Liking a comment and then deleting it is the same as deleting it. */
  lemma {:induction false} LikeThenDelete(comments: seq<Comment>, commentId: string, n: int, b: bool)
    ensures Delete(Like(comments, commentId, n, b), commentId) == Delete(comments, commentId)
    decreases |comments|
  {
    if comments != [] {
      var l := Like(comments, commentId, n, b);
      assert l[1..] == Like(comments[1..], commentId, n, b);
      LikeThenDelete(comments[1..], commentId, n, b);
    }
  }

  // ---------------------------------------------------------------------
  // The screen
  // ---------------------------------------------------------------------

  /**
   * The GET reply; `Body(None)` is a body whose `comments` is missing or falsy
   * (`data.comments || []`). A truthy `comments` that is not an array makes
   * `.map` throw, and the catch makes that a `FetchThrew`.
   */
  datatype FetchReply = FetchThrew | FetchNotOk | Body(comments: Option<seq<RawComment>>)

  /** The POST reply; `PostBody(None)` is a body without a comment. */
  datatype PostReply = PostThrew | PostNotOk | PostBody(comment: Option<RawComment>)

  datatype PostOutcome = EmptyRejected | PostFailed | InvalidComment | UnexpectedReply | Posted

  datatype DeleteReply = Cancelled | NoToken | DeleteThrew | DeleteNotOk | DeleteOk

  datatype LikeReply = LikeThrew | LikeNotOk | LikeBody(likesCount: int, likedByUser: bool)

  class Screen {
    const userId: Option<string>
    var comments: seq<Comment>
    var loading: bool
    var commentText: string
    var posting: bool
    var sortOrder: SortOrder

    constructor (userId: Option<string>)
      ensures this.userId == userId
      ensures comments == [] && loading && commentText == "" && !posting && sortOrder == Newest
    {
      this.userId := userId;
      comments := [];
      loading := true;
      commentText := "";
      posting := false;
      sortOrder := Newest;
    }

    /**
     * fetchComments: on a body, the comments are normalised and sorted in the
     * current order; a failed or thrown request keeps the list. Loading ends
     * either way.
     */
    method FetchComments(reply: FetchReply)
      modifies this`comments, this`loading
      ensures reply.Body? ==>
                comments == SortSpec(NormaliseAll(reply.comments.GetOr([]), userId), sortOrder)
      ensures !reply.Body? ==> comments == old(comments)
      ensures !loading
    {
      loading := true;
      if reply.Body? {
        var fetched := NormaliseAll(reply.comments.GetOr([]), userId);
        var a := new Comment[|fetched|](i requires 0 <= i < |fetched| => fetched[i]);
        assert a[..] == fetched;
        SortComments(a, sortOrder);
        comments := a[..];
      }
      loading := false;
    }

    /**
     * postComment: text that is empty after trimming is rejected before any
     * request (`sent` is None); otherwise the trimmed text is sent. A returned
     * comment with an id and text is normalised and inserted, and the field
     * is cleared; every other reply leaves the list and the field alone.
     */
    method PostComment(reply: PostReply) returns (sent: Option<string>, outcome: PostOutcome)
      modifies this`comments, this`commentText, this`posting
      ensures sent.None? <==> JsText.Trim(old(commentText)) == ""
      ensures sent.Some? ==> sent.value == JsText.Trim(old(commentText))
      ensures outcome == Posted <==>
                sent.Some? && reply.PostBody? && reply.comment.Some? &&
                reply.comment.value.id != "" && reply.comment.value.commentText != ""
      ensures outcome == Posted ==>
                comments == Inserted(old(comments), Normalise(reply.comment.value, userId), sortOrder) &&
                commentText == ""
      ensures outcome != Posted ==> comments == old(comments) && commentText == old(commentText)
      ensures sent.None? ==> outcome == EmptyRejected && posting == old(posting)
      ensures sent.Some? ==> !posting
    {
      var trimmed := JsText.Trim(commentText);
      if trimmed == "" {
        return None, EmptyRejected;
      }
      sent := Some(trimmed);
      posting := true;
      match reply {
        case PostThrew =>
          outcome := PostFailed;
        case PostNotOk =>
          outcome := PostFailed;
        case PostBody(comment) =>
          if comment.None? {
            outcome := UnexpectedReply;
          } else if comment.value.id != "" && comment.value.commentText != "" {
            comments := Inserted(comments, Normalise(comment.value, userId), sortOrder);
            commentText := "";
            outcome := Posted;
          } else {
            outcome := InvalidComment;
          }
      }
      posting := false;
    }

    /** deleteComment: only a confirmed, authorised and successful delete filters the list. */
    method DeleteComment(commentId: string, reply: DeleteReply)
      modifies this`comments
      ensures reply == DeleteOk ==> comments == Delete(old(comments), commentId)
      ensures reply != DeleteOk ==> comments == old(comments)
    {
      if reply == DeleteOk {
        comments := Delete(comments, commentId);
      }
    }

    /**
     * handleLikePress: without a signed-in user nothing is requested
     * (`requested` is false); a successful reply updates the matching comments.
     */
    method HandleLikePress(commentId: string, reply: LikeReply) returns (requested: bool)
      modifies this`comments
      ensures requested <==> JsText.Truthy(userId)
      ensures requested && reply.LikeBody? ==>
                comments == Like(old(comments), commentId, reply.likesCount, reply.likedByUser)
      ensures !(requested && reply.LikeBody?) ==> comments == old(comments)
    {
      if !JsText.Truthy(userId) {
        return false;
      }
      requested := true;
      if reply.LikeBody? {
        comments := Like(comments, commentId, reply.likesCount, reply.likedByUser);
      }
    }

    /** toggleSortOrder; the refetch it triggers is a separate FetchComments call. */
    method ToggleSortOrder()
      modifies this`sortOrder
      ensures sortOrder == Toggle(old(sortOrder))
    {
      sortOrder := Toggle(sortOrder);
    }
  }
}
