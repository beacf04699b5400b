/** Who may do what with a comment, and how a thread is laid out: the flags each rendered comment
    computes and the depth that nested replies are rendered at. */
module CommentThread {
  import opened Wrappers
  import opened Text
  import opened CommentTree
  import opened CommentRules

  /** The viewer and the session, as the thread receives them. `now` is `Date.now()`. */
  datatype Viewer = Viewer(currentUserId: string, sessionCreatorId: string, now: int)

  /** 24 hours in milliseconds. */
  const MaxEditAge: int := 24 * 60 * 60 * 1000

  predicate IsOwnComment(c: Comment, v: Viewer) {
    c.userId == v.currentUserId
  }

  predicate IsSessionCreator(v: Viewer) {
    v.currentUserId == v.sessionCreatorId
  }

  /** The options menu, with "Delete comment", is offered to the author and to the session creator. */
  predicate CanModerate(c: Comment, v: Viewer) {
    IsOwnComment(c, v) || IsSessionCreator(v)
  }

  /** Milliseconds since the comment was created; a null `created_at` reads as the epoch. */
  function CommentAge(c: Comment, v: Viewer): int {
    v.now - c.createdAt.GetOr(0)
  }

  /** "Edit comment" is offered to the author alone, up to and including 24 hours after creation. */
  predicate CanEdit(c: Comment, v: Viewer) {
    IsOwnComment(c, v) && CommentAge(c, v) <= MaxEditAge
  }

  predicate CanReply(depth: int, maxDepth: int) {
    depth < maxDepth
  }

  /** "(edited)" follows the timestamp when the two timestamps differ. */
  predicate Edited(c: Comment) {
    c.updatedAt != c.createdAt
  }

  /** The "Host" badge. */
  predicate ShowsHostBadge(c: Comment, v: Viewer) {
    v.currentUserId == v.sessionCreatorId && c.userId == v.sessionCreatorId
  }

  /** The indentation class: none at the top, then `ml-4`, `ml-8` and at most `ml-12`. */
  function IndentClass(depth: int): string {
    if depth > 0 then "ml-" + IntToString(if depth * 4 <= 12 then depth * 4 else 12) else ""
  }

  /** What the page shows for one comment. */
  datatype Item = Item(
    comment: Comment,
    depth: int,
    showsReply: bool,
    showsMenu: bool,
    showsEdit: bool,
    showsDelete: bool,
    edited: bool,
    hostBadge: bool,
    indent: string)

  function ItemFor(c: Comment, v: Viewer, depth: int, maxDepth: int): (item: Item)
    ensures item.comment == c && item.depth == depth
    ensures item.showsReply <==> depth < maxDepth
    ensures item.showsDelete <==> IsOwnComment(c, v) || IsSessionCreator(v)
    ensures item.showsEdit <==> IsOwnComment(c, v) && CommentAge(c, v) <= MaxEditAge
    ensures item.edited <==> c.updatedAt != c.createdAt
  {
    var moderate := CanModerate(c, v);
    Item(c, depth, CanReply(depth, maxDepth), moderate, moderate && CanEdit(c, v), moderate,
         Edited(c), ShowsHostBadge(c, v), IndentClass(depth))
  }

  /** `CommentThread` at `depth`: each comment of the level, followed by its replies rendered as a
      thread one level deeper with the same `maxDepth`. */
  function RenderThread(f: seq<Tree>, v: Viewer, depth: int, maxDepth: int): (items: seq<Item>)
    decreases f
  {
    if f == [] then []
    else
      [ItemFor(f[0].comment, v, depth, maxDepth)]
      + RenderThread(f[0].replies, v, depth + 1, maxDepth)
      + RenderThread(f[1..], v, depth, maxDepth)
  }

  /** The thread as the session page mounts it: `depth` and `maxDepth` default to 0 and 3. */
  function RenderComments(f: seq<Tree>, v: Viewer, depth: Option<int>, maxDepth: Option<int>): seq<Item> {
    RenderThread(f, v, depth.GetOr(0), maxDepth.GetOr(3))
  }

  function ItemComments(items: seq<Item>): (r: seq<Comment>)
    ensures |r| == |items|
    ensures forall i :: 0 <= i < |items| ==> r[i] == items[i].comment
  {
    seq(|items|, i requires 0 <= i < |items| => items[i].comment)
  }

  lemma ItemCommentsAppend(a: seq<Item>, b: seq<Item>)
    ensures ItemComments(a + b) == ItemComments(a) + ItemComments(b)
  {
    assert forall i :: 0 <= i < |a + b| ==> ItemComments(a + b)[i] == (ItemComments(a) + ItemComments(b))[i];
  }

  /** Every comment of the forest is rendered once, parents before their replies. */
  lemma {:induction false} RenderShowsForest(f: seq<Tree>, v: Viewer, depth: int, maxDepth: int)
    ensures ItemComments(RenderThread(f, v, depth, maxDepth)) == Flatten(f)
    decreases f
  {
    if f != [] {
      RenderShowsForest(f[0].replies, v, depth + 1, maxDepth);
      RenderShowsForest(f[1..], v, depth, maxDepth);
      var head := [ItemFor(f[0].comment, v, depth, maxDepth)];
      var replies := RenderThread(f[0].replies, v, depth + 1, maxDepth);
      ItemCommentsAppend(head + replies, RenderThread(f[1..], v, depth, maxDepth));
      ItemCommentsAppend(head, replies);
    }
  }

  /** A thread of reply height at most `k` rendered at `depth` puts every comment between `depth` and
      `depth + k`, and offers "Reply" exactly below `maxDepth`. */
  lemma {:induction false} RenderDepths(f: seq<Tree>, v: Viewer, depth: int, maxDepth: int, k: int)
    requires forall t :: t in f ==> HeightAtMost(t, k)
    ensures forall item :: item in RenderThread(f, v, depth, maxDepth) ==>
      depth <= item.depth <= depth + k && (item.showsReply <==> item.depth < maxDepth)
    decreases f
  {
    if f != [] {
      assert f[0] in f;
      assert forall r :: r in f[0].replies ==> HeightAtMost(r, k - 1);
      RenderDepths(f[0].replies, v, depth + 1, maxDepth, k - 1);
      assert forall t :: t in f[1..] ==> t in f;
      RenderDepths(f[1..], v, depth, maxDepth, k);
    }
  }

  /** When the forest passes `validateCommentDepth` with the page's `maxDepth`, no comment is rendered
      deeper than `maxDepth`, and none at `maxDepth` offers "Reply". */
  lemma ValidatedThreadDepth(f: seq<Tree>, v: Viewer, maxDepth: int)
    requires ValidateCommentDepth(f, Some(maxDepth))
    ensures forall item :: item in RenderComments(f, v, None, Some(maxDepth)) ==>
      0 <= item.depth <= maxDepth && (item.showsReply <==> item.depth < maxDepth)
  {
    ValidateCommentDepthMeaning(f, Some(maxDepth));
    RenderDepths(f, v, 0, maxDepth, maxDepth);
  }

  /** The session creator sees "Delete comment" on someone else's comment but never "Edit comment". */
  lemma CreatorDeletesButCannotEdit(c: Comment, v: Viewer, depth: int, maxDepth: int)
    requires IsSessionCreator(v) && !IsOwnComment(c, v)
    ensures ItemFor(c, v, depth, maxDepth).showsDelete && !ItemFor(c, v, depth, maxDepth).showsEdit
  {
  }

  /** The edit window is inclusive: exactly 24 hours after creation is still editable, a millisecond
      later is not. */
  lemma EditWindowBoundary(c: Comment, v: Viewer)
    requires IsOwnComment(c, v)
    ensures CanEdit(c, v) <==> v.now <= c.createdAt.GetOr(0) + 86_400_000
  {
  }

  /** Indentation grows by 4 per level and stops at 12. */
  lemma IndentClasses()
    ensures IndentClass(0) == "" && IndentClass(-1) == ""
    ensures IndentClass(1) == "ml-4" && IndentClass(2) == "ml-8"
    ensures forall d :: d >= 3 ==> IndentClass(d) == "ml-12"
  {
    assert IntToString(4) == "4" && IntToString(8) == "8" && IntToString(12) == "12";
  }

  /** The author who created the session gets the badge; nobody else does, and a viewer who is not the
      creator sees it on no comment. */
  lemma HostBadgeOnlyForCreator(c: Comment, v: Viewer)
    ensures ShowsHostBadge(c, v) <==> IsSessionCreator(v) && IsOwnComment(c, v)
  {
  }
}
