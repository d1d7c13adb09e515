/** The post service: reading posts, creating, updating and deleting them under
    the author-only rule, and toggling likes. */
module PostServices {
  import opened Wrappers
  import opened Entities
  import opened Queries
  import opened Ordering
  import opened Data

  /** OrderByDescending(CreatedAt): a newer post comes first. */
  predicate NewestFirst(a: Post, b: Post) {
    a.createdAt >= b.createdAt
  }

  lemma NewestFirstIsTotalPreorder()
    ensures TotalPreorder(NewestFirst)
  {
  }

  // ---------------------------------------------------------------------------
  // Likes

  /** A Like row for (postId, userId) exists. */
  ghost predicate Liked(likes: seq<Like>, postId: int, userId: UserId) {
    exists l :: l in likes && l.postId == postId && l.userId == userId
  }

  /** `Likes.FirstOrDefault(l => l.PostId == postId && l.UserId == userId)`. */
  function FindLike(likes: seq<Like>, postId: int, userId: UserId): (r: Option<Like>)
    ensures r.Some? ==> r.value in likes && r.value.postId == postId && r.value.userId == userId
    ensures r.None? <==> !Liked(likes, postId, userId)
  {
    FirstMatch(likes, (l: Like) => l.postId == postId && l.userId == userId)
  }

  /** `Likes.Remove(like)`: deletes the row with that key. */
  function RemoveLikeRow(likes: seq<Like>, likeId: int): seq<Like> {
    Filter(likes, (l: Like) => l.id != likeId)
  }

  /** The (post, user) pairs that are liked. */
  function LikePairs(likes: seq<Like>): set<(int, UserId)> {
    Keys(likes, LikePair)
  }

  /** The store after ToggleLikeAsync: an existing like for the pair is removed;
      otherwise a new like is inserted, which the database refuses when the
      post or the user does not exist. */
  function ToggleLikeRows(t: Tables, postId: int, userId: UserId, now: Time): Result<Tables, StoreError> {
    match FindLike(t.likes, postId, userId)
    case Some(existing) => Ok(t.(likes := RemoveLikeRow(t.likes, existing.id)))
    case None =>
      if postId in PostIds(t.posts) && userId in UserIds(t.users) then
        Ok(t.(likes := t.likes + [Like(NextKey(t.likes, LikeKey), postId, userId, now)]))
      else
        Err(ForeignKeyViolation)
  }

  /** Removing the like of a pair, under the unique index, removes exactly that
      pair and one row. */
  lemma RemoveLikeEffect(t: Tables, postId: int, userId: UserId)
    requires Consistent(t)
    requires FindLike(t.likes, postId, userId).Some?
    ensures var likes := RemoveLikeRow(t.likes, FindLike(t.likes, postId, userId).value.id);
      && LikePairs(likes) == LikePairs(t.likes) - {(postId, userId)}
      && |likes| == |t.likes| - 1
      && !Liked(likes, postId, userId)
      && Consistent(t.(likes := likes))
  {
    var existing := FindLike(t.likes, postId, userId).value;
    var keep := (l: Like) => l.id != existing.id;
    var likes := RemoveLikeRow(t.likes, existing.id);
    forall l | l in t.likes ensures keep(l) <==> LikePair(l) != (postId, userId) {
      if l.id == existing.id {
        KeyDeterminesRow(t.likes, LikeKey, l, existing);
      } else if LikePair(l) == (postId, userId) {
        KeyDeterminesRow(t.likes, LikePair, l, existing);
      }
    }
    assert (postId, userId) in LikePairs(t.likes) by {
      assert LikePair(existing) == (postId, userId);
    }
    FilterDropsOneKey(t.likes, keep, LikePair, (postId, userId));
    FilterKeysUnique(t.likes, keep, LikeKey);
    FilterKeysUnique(t.likes, keep, LikePair);
    forall k | k in LikePairs(t.likes) - {(postId, userId)} ensures k in LikePairs(likes) {
      var l :| l in t.likes && LikePair(l) == k;
      assert l in likes;
    }
  }

  /** Inserting a like for an unliked pair whose post and user exist adds
      exactly that pair and one row. */
  lemma AddLikeEffect(t: Tables, postId: int, userId: UserId, now: Time)
    requires Consistent(t)
    requires !Liked(t.likes, postId, userId)
    requires postId in PostIds(t.posts) && userId in UserIds(t.users)
    ensures var likes := t.likes + [Like(NextKey(t.likes, LikeKey), postId, userId, now)];
      && LikePairs(likes) == LikePairs(t.likes) + {(postId, userId)}
      && |likes| == |t.likes| + 1
      && Liked(likes, postId, userId)
      && Consistent(t.(likes := likes))
  {
    var like := Like(NextKey(t.likes, LikeKey), postId, userId, now);
    var likes := t.likes + [like];
    assert like in likes;
    AppendKeysUnique(t.likes, LikeKey, like);
    AppendKeysUnique(t.likes, LikePair, like);
    forall k | k in LikePairs(likes) ensures k in LikePairs(t.likes) + {(postId, userId)} {
      var l :| l in likes && LikePair(l) == k;
      if l != like { assert l in t.likes; }
    }
    forall k | k in LikePairs(t.likes) ensures k in LikePairs(likes) {
      var l :| l in t.likes && LikePair(l) == k;
      assert l in likes;
    }
  }

  /** ToggleLikeAsync: it fails only when it must insert a like for a missing
      post or user; otherwise it flips whether the pair is liked, changes the
      set of liked pairs by exactly that pair and the row count by one, keeps
      the store consistent and changes no other table. */
  lemma ToggleLikeFlips(t: Tables, postId: int, userId: UserId, now: Time)
    requires Consistent(t)
    ensures var r := ToggleLikeRows(t, postId, userId, now);
      && (r.Err? <==> !Liked(t.likes, postId, userId) && (postId !in PostIds(t.posts) || userId !in UserIds(t.users)))
      && (r.Ok? ==>
           && Consistent(r.value)
           && r.value == t.(likes := r.value.likes)
           && (Liked(r.value.likes, postId, userId) <==> !Liked(t.likes, postId, userId))
           && LikePairs(r.value.likes) == (if Liked(t.likes, postId, userId)
                                          then LikePairs(t.likes) - {(postId, userId)}
                                          else LikePairs(t.likes) + {(postId, userId)})
           && |r.value.likes| == (if Liked(t.likes, postId, userId) then |t.likes| - 1 else |t.likes| + 1))
  {
    if Liked(t.likes, postId, userId) {
      RemoveLikeEffect(t, postId, userId);
    } else if postId in PostIds(t.posts) && userId in UserIds(t.users) {
      AddLikeEffect(t, postId, userId, now);
    }
  }

  /** Toggling the same pair twice restores the set of liked pairs; when the
      pair was not liked, it restores the like table row for row. */
  lemma ToggleLikeTwice(t: Tables, postId: int, userId: UserId, now1: Time, now2: Time)
    requires Consistent(t)
    requires ToggleLikeRows(t, postId, userId, now1).Ok?
    ensures var t1 := ToggleLikeRows(t, postId, userId, now1).value;
      && ToggleLikeRows(t1, postId, userId, now2).Ok?
      && LikePairs(ToggleLikeRows(t1, postId, userId, now2).value.likes) == LikePairs(t.likes)
      && (!Liked(t.likes, postId, userId) ==> ToggleLikeRows(t1, postId, userId, now2).value == t)
  {
    var t1 := ToggleLikeRows(t, postId, userId, now1).value;
    ToggleLikeFlips(t, postId, userId, now1);
    ToggleLikeFlips(t1, postId, userId, now2);
    if Liked(t.likes, postId, userId) {
      assert (postId, userId) in LikePairs(t.likes) by {
        var l :| l in t.likes && l.postId == postId && l.userId == userId;
        assert LikePair(l) == (postId, userId);
      }
    } else {
      var like := Like(NextKey(t.likes, LikeKey), postId, userId, now1);
      assert t1.likes == t.likes + [like];
      var existing := FindLike(t1.likes, postId, userId).value;
      assert existing !in t.likes;
      assert existing == like;
      var keep := (l: Like) => l.id != like.id;
      FilterAppend(t.likes, keep, like);
      FilterKeepsAll(t.likes, keep);
    }
  }

  /** The post service over one database context. */
  class PostService {
    const context: EchosDb

    constructor (context: EchosDb)
      ensures this.context == context
    {
      this.context := context;
    }

    /** GetAllPostsAsync: every post exactly once, newest first. */
    method GetAllPosts() returns (r: seq<Post>)
      ensures multiset(r) == multiset(context.posts)
      ensures SortedBy(r, NewestFirst)
    {
      NewestFirstIsTotalPreorder();
      r := SortBy(context.posts, NewestFirst);
    }

    /** GetPostByIdAsync: the post with that id, or None when there is none. */
    method GetPostById(id: int) returns (r: Option<Post>)
      ensures r.Some? ==> r.value in context.posts && r.value.id == id
      ensures r.None? <==> id !in PostIds(context.posts)
    {
      r := PostById(context.posts, id);
    }

    /** CreatePostAsync: stamps CreatedAt, stores the post under a new key and
        returns it; the database refuses a post whose author does not exist. */
    method CreatePost(post: Post, now: Time) returns (r: Result<Post, StoreError>)
      requires context.Valid()
      modifies context
      ensures context.Valid()
      ensures r.Ok? <==> post.authorId in UserIds(old(context.users))
      ensures r.Ok? ==> r.value == post.(id := NextKey(old(context.posts), PostKey), createdAt := now)
      ensures r.Ok? ==> r.value.id !in PostIds(old(context.posts))
      ensures r.Ok? ==> context.Snapshot() == old(context.Snapshot()).(posts := old(context.posts) + [r.value])
      ensures r.Err? ==> r.error == ForeignKeyViolation && context.Snapshot() == old(context.Snapshot())
    {
      var before := context.Snapshot();
      if post.authorId !in UserIds(context.users) {
        return Err(ForeignKeyViolation);
      }
      var created := post.(createdAt := now);
      created := created.(id := NextKey(context.posts, PostKey));
      assert created.id !in PostIds(before.posts);
      AppendKeysUnique(before.posts, PostKey, created);
      context.Store(before.(posts := before.posts + [created]));
      r := Ok(created);
    }

    /** UpdatePostAsync: only the author may update; the post keeps everything
        but its title, content and UpdatedAt. */
    method UpdatePost(post: Post, currentUserId: UserId, now: Time) returns (ok: bool)
      requires context.Valid()
      modifies context
      ensures context.Valid()
      ensures ok <==> PostById(old(context.posts), post.id).Some?
                      && PostById(old(context.posts), post.id).value.authorId == currentUserId
      ensures !ok ==> context.Snapshot() == old(context.Snapshot())
      ensures ok ==>
        var existing := PostById(old(context.posts), post.id).value;
        context.Snapshot() == old(context.Snapshot()).(posts := ReplaceByKey(old(context.posts), PostKey,
          existing.(title := post.title, content := post.content, updatedAt := Some(now))))
    {
      var existing := PostById(context.posts, post.id);
      if existing.None? {
        return false;
      }
      if existing.value.authorId != currentUserId {
        return false;
      }
      var updated := existing.value;
      updated := updated.(title := post.title);
      updated := updated.(content := post.content);
      updated := updated.(updatedAt := Some(now));
      ReplacePostKeepsConsistency(context.Snapshot(), updated);
      context.Store(context.Snapshot().(posts := ReplaceByKey(context.posts, PostKey, updated)));
      ok := true;
    }

    /** DeletePostAsync: only the author may delete; the post goes with its
        dependent rows. */
    method DeletePost(id: int, currentUserId: UserId) returns (ok: bool)
      requires context.Valid()
      modifies context
      ensures context.Valid()
      ensures ok <==> PostById(old(context.posts), id).Some?
                      && PostById(old(context.posts), id).value.authorId == currentUserId
      ensures ok ==> context.Snapshot() == DeletePostCascade(old(context.Snapshot()), id)
      ensures !ok ==> context.Snapshot() == old(context.Snapshot())
    {
      var post := PostById(context.posts, id);
      if post.None? {
        return false;
      }
      if post.value.authorId != currentUserId {
        return false;
      }
      context.RemovePost(id);
      ok := true;
    }

    /** ToggleLikeAsync: removes the caller's like (result false) or adds one
        (result true); afterwards HasUserLiked answers the returned value. */
    method ToggleLike(postId: int, userId: UserId, now: Time) returns (r: Result<bool, StoreError>)
      requires context.Valid()
      modifies context
      ensures context.Valid()
      ensures r.Ok? ==> (r.value <==> Liked(context.likes, postId, userId))
      ensures r.Ok? ==> (r.value <==> !Liked(old(context.likes), postId, userId))
      ensures r.Err? <==> ToggleLikeRows(old(context.Snapshot()), postId, userId, now).Err?
      ensures r.Ok? ==> context.Snapshot() == ToggleLikeRows(old(context.Snapshot()), postId, userId, now).value
      ensures r.Err? ==> r.error == ForeignKeyViolation && context.Snapshot() == old(context.Snapshot())
    {
      var before := context.Snapshot();
      ToggleLikeFlips(before, postId, userId, now);
      var existingLike := FindLike(context.likes, postId, userId);
      if existingLike.Some? {
        context.Store(before.(likes := RemoveLikeRow(before.likes, existingLike.value.id)));
        r := Ok(false);
      } else if postId in PostIds(context.posts) && userId in UserIds(context.users) {
        var like := Like(NextKey(context.likes, LikeKey), postId, userId, now);
        context.Store(before.(likes := before.likes + [like]));
        r := Ok(true);
      } else {
        r := Err(ForeignKeyViolation);
      }
    }

    /** HasUserLikedAsync: whether a like for the pair exists. */
    method HasUserLiked(postId: int, userId: UserId) returns (liked: bool)
      ensures liked <==> Liked(context.likes, postId, userId)
    {
      liked := FindLike(context.likes, postId, userId).Some?;
    }
  }
}
