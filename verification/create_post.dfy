/** The post-creation page: the tag selection list and the submit handler
    that fills in the author. */
module CreatePostPage {
  import opened Wrappers
  import opened Entities
  import opened Queries
  import opened Data
  import opened PostServices

  const MissingUser: string := "ユーザー情報を取得できませんでした。"
  const CreateFailed: string := "投稿の作成中にエラーが発生しました: "
  const AfterCreate: string := "/posts"

  /** No id is selected twice. */
  ghost predicate NoDuplicates(s: seq<int>) {
    forall i, j :: 0 <= i < j < |s| ==> s[i] != s[j]
  }

  /** `List<int>.Remove(x)`: drops the first occurrence of x, if there is one. */
  function RemoveFirst(s: seq<int>, x: int): (r: seq<int>)
    ensures x !in s ==> r == s
    ensures x in s ==> |r| == |s| - 1 && multiset(r) == multiset(s) - multiset{x}
  {
    if s == [] then []
    else if s[0] == x then
      assert s == [s[0]] + s[1..];
      s[1..]
    else
      assert s == [s[0]] + s[1..];
      [s[0]] + RemoveFirst(s[1..], x)
  }

  /** The position of the first occurrence of x. */
  function FirstIndexOf(s: seq<int>, x: int): (i: nat)
    requires x in s
    ensures i < |s| && s[i] == x && x !in s[..i]
  {
    if s[0] == x then 0
    else
      assert x in s[1..] && s == [s[0]] + s[1..];
      var k := FirstIndexOf(s[1..], x);
      assert s[..k + 1] == [s[0]] + s[1..][..k];
      k + 1
  }

  /** Removal at a first occurrence i cuts position i out of the list. */
  lemma {:induction false} RemoveFirstAt(s: seq<int>, x: int, i: nat)
    requires i < |s| && s[i] == x && x !in s[..i]
    ensures RemoveFirst(s, x) == s[..i] + s[i + 1..]
  {
    if i > 0 {
      var t := s[1..];
      assert s[0] in s[..i];
      assert t[i - 1] == x && t[..i - 1] == s[1..i];
      assert x !in t[..i - 1];
      RemoveFirstAt(t, x, i - 1);
      assert RemoveFirst(s, x) == [s[0]] + RemoveFirst(t, x);
      assert s[..i] == [s[0]] + t[..i - 1];
      assert s[i + 1..] == t[i..];
    }
  }

  /** The occurrence removed is the first one, and the other ids keep their
      order: the result is the list with its position i cut out, where i is
      the first position holding x. */
  lemma RemoveFirstCutsFirst(s: seq<int>, x: int)
    requires x in s
    ensures exists i :: 0 <= i < |s| && s[i] == x && x !in s[..i] && RemoveFirst(s, x) == s[..i] + s[i + 1..]
  {
    var i := FirstIndexOf(s, x);
    RemoveFirstAt(s, x, i);
  }

  /** The selection after ToggleTag: a selected id is removed, any other
      id is appended. */
  function ToggledTags(s: seq<int>, id: int): seq<int> {
    if id in s then RemoveFirst(s, id) else s + [id]
  }

  /** Toggling flips the toggled id on a duplicate-free selection, leaves every
      other id as it was, and keeps the selection duplicate-free. */
  lemma ToggleTagFlips(s: seq<int>, id: int)
    ensures forall x :: x != id ==> (x in ToggledTags(s, id) <==> x in s)
    ensures NoDuplicates(s) ==> (id in ToggledTags(s, id) <==> id !in s)
    ensures NoDuplicates(s) ==> NoDuplicates(ToggledTags(s, id))
  {
    var r := ToggledTags(s, id);
    forall x | x != id ensures x in r <==> x in s {
      assert x in r <==> multiset(r)[x] > 0;
      assert x in s <==> multiset(s)[x] > 0;
    }
    if NoDuplicates(s) {
      if id in s {
        RemoveFirstDistinct(s, id);
      } else {
        forall i, j | 0 <= i < j < |r| ensures r[i] != r[j] {
          if j == |s| { assert r[i] == s[i] && s[i] in s; }
          else { assert r[i] == s[i] && r[j] == s[j]; }
        }
      }
    }
  }

  /** Removing x from a duplicate-free sequence removes it entirely and
      keeps the rest duplicate-free. */
  lemma {:induction false} RemoveFirstDistinct(s: seq<int>, x: int)
    requires NoDuplicates(s)
    ensures x !in RemoveFirst(s, x)
    ensures NoDuplicates(RemoveFirst(s, x))
  {
    if s != [] {
      var tail := s[1..];
      assert NoDuplicates(tail) by {
        forall i, j | 0 <= i < j < |tail| ensures tail[i] != tail[j] {
          assert tail[i] == s[i + 1] && tail[j] == s[j + 1];
        }
      }
      assert s[0] !in tail by {
        forall k | 0 <= k < |tail| ensures tail[k] != s[0] {
          assert tail[k] == s[k + 1];
        }
      }
      if s[0] != x {
        RemoveFirstDistinct(tail, x);
        var rest := RemoveFirst(tail, x);
        assert s[0] !in rest by {
          assert multiset(rest)[s[0]] <= multiset(tail)[s[0]] == 0;
        }
        var r := [s[0]] + rest;
        forall i, j | 0 <= i < j < |r| ensures r[i] != r[j] {
          assert r[j] == rest[j - 1];
          if i > 0 { assert r[i] == rest[i - 1]; }
        }
      }
    }
  }

  /** Toggling the same id twice on a duplicate-free selection restores it as
      a collection; an id that was not selected leaves it exactly as it was. */
  lemma ToggleTagTwice(s: seq<int>, id: int)
    requires NoDuplicates(s)
    ensures multiset(ToggledTags(ToggledTags(s, id), id)) == multiset(s)
    ensures forall x :: x in ToggledTags(ToggledTags(s, id), id) <==> x in s
    ensures id !in s ==> ToggledTags(ToggledTags(s, id), id) == s
  {
    var once := ToggledTags(s, id);
    ToggleTagFlips(s, id);
    if id !in s {
      assert once[|s|] == id;
      RemoveFirstAppended(s, id);
    } else {
      assert id !in once;
    }
    var twice := ToggledTags(once, id);
    forall x ensures x in twice <==> x in s {
      assert x in twice <==> multiset(twice)[x] > 0;
      assert x in s <==> multiset(s)[x] > 0;
    }
  }

  /** Removing an id just appended, when it was absent before, gives back the
      sequence. */
  lemma {:induction false} RemoveFirstAppended(s: seq<int>, x: int)
    requires x !in s
    ensures RemoveFirst(s + [x], x) == s
  {
    if s == [] {
      assert [x][1..] == [];
    } else {
      assert (s + [x])[0] == s[0];
      assert (s + [x])[1..] == s[1..] + [x];
      RemoveFirstAppended(s[1..], x);
      assert s == [s[0]] + s[1..];
    }
  }

  /** The post-creation page's state and the post service it calls. */
  class Create {
    const posts: PostService
    var selectedTagIds: seq<int>
    var isSubmitting: bool
    var errorMessage: Option<string>

    constructor (posts: PostService)
      ensures this.posts == posts
      ensures selectedTagIds == [] && !isSubmitting && errorMessage.None?
    {
      this.posts := posts;
      selectedTagIds := [];
      isSubmitting := false;
      errorMessage := None;
    }

    /** ToggleTag: `Remove` when the id is selected, `Add` otherwise. */
    method ToggleTag(tagId: int)
      modifies this`selectedTagIds
      ensures selectedTagIds == ToggledTags(old(selectedTagIds), tagId)
      ensures NoDuplicates(old(selectedTagIds)) ==> NoDuplicates(selectedTagIds)
    {
      ToggleTagFlips(selectedTagIds, tagId);
      if tagId in selectedTagIds {
        selectedTagIds := RemoveFirst(selectedTagIds, tagId);
      } else {
        selectedTagIds := selectedTagIds + [tagId];
      }
    }

    /** HandleValidSubmit. `userId` is the NameIdentifier claim of the signed-in
        user, if any. Without one nothing is created; otherwise the post is
        created with that user as its author. The selected tags are not passed
        on: the post service's creation takes the post alone. The result is
        the page navigated to. */
    method HandleValidSubmit(title: string, content: string, userId: Option<string>, now: Time)
      returns (navigateTo: Option<string>)
      requires posts.context.Valid()
      modifies this`isSubmitting, this`errorMessage, posts.context
      ensures posts.context.Valid()
      ensures !isSubmitting
      ensures userId.None? || userId.value == "" ==>
        && errorMessage == Some(MissingUser) && navigateTo.None?
        && posts.context.Snapshot() == old(posts.context.Snapshot())
      ensures userId.Some? && userId.value != "" && userId.value in UserIds(old(posts.context.users)) ==>
        && errorMessage.None? && navigateTo == Some(AfterCreate)
        && |posts.context.posts| == |old(posts.context.posts)| + 1
        && posts.context.Snapshot() == old(posts.context.Snapshot()).(posts := old(posts.context.posts) +
             [Post(NextKey(old(posts.context.posts), PostKey), title, content, userId.value, now, None, false, None)])
      ensures userId.Some? && userId.value != "" && userId.value !in UserIds(old(posts.context.users)) ==>
        && errorMessage == Some(CreateFailed + StoreErrorMessage(ForeignKeyViolation)) && navigateTo.None?
        && posts.context.Snapshot() == old(posts.context.Snapshot())
    {
      isSubmitting := true;
      errorMessage := None;
      navigateTo := None;

      if userId.None? || userId.value == "" {
        errorMessage := Some(MissingUser);
        isSubmitting := false;
        return;
      }

      var post := Post(0, title, content, userId.value, 0, None, false, None);
      var created := posts.CreatePost(post, now);
      if created.Ok? {
        navigateTo := Some(AfterCreate);
      } else {
        errorMessage := Some(CreateFailed + StoreErrorMessage(created.error));
      }
      isSubmitting := false;
    }
  }
}
