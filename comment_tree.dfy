/** Comment threading: a flat list of comments, each naming an optional parent, becomes a forest of
    replies with every level sorted oldest first. */
module CommentTree {
  import opened Wrappers
  import opened Sorting

  type Id = string

  datatype Author = Author(id: Id, name: string)

  /** A comment as the database returns it. Timestamps are milliseconds; `None` is a null column. */
  datatype Comment = Comment(
    id: Id,
    content: string,
    sessionId: Id,
    userId: Id,
    parentCommentId: Option<Id>,
    createdAt: Option<int>,
    updatedAt: Option<int>,
    user: Author)

  /** A comment with its (sorted) replies. */
  datatype Tree = Node(comment: Comment, replies: seq<Tree>)

  /** The parent id is truthy: present, not null and not the empty string. */
  predicate HasParent(c: Comment) {
    c.parentCommentId.Some? && c.parentCommentId.value != ""
  }

  predicate NamesParent(c: Comment, p: Id) {
    HasParent(c) && c.parentCommentId.value == p
  }

  /** The sort key: `created_at ?? 0`. */
  function CreatedKey(c: Comment): int {
    c.createdAt.GetOr(0)
  }

  // ---------------------------------------------------------------------------------------------
  // Reference definitions of what the two passes compute

  /** The index of the first pass: every comment is stored under its id, so a later duplicate replaces
      an earlier one. */
  function Index(comments: seq<Comment>): map<Id, Comment> {
    if comments == [] then map[]
    else
      var last := comments[|comments| - 1];
      Index(comments[..|comments| - 1])[last.id := last]
  }

  /** The ids of the comments without a parent, in input order. */
  function RootIds(comments: seq<Comment>): seq<Id> {
    if comments == [] then []
    else
      var last := comments[|comments| - 1];
      RootIds(comments[..|comments| - 1]) + (if HasParent(last) then [] else [last.id])
  }

  /** The ids of the comments naming `p` as their parent, in input order. */
  function ChildIds(comments: seq<Comment>, p: Id): seq<Id> {
    if comments == [] then []
    else
      var last := comments[|comments| - 1];
      ChildIds(comments[..|comments| - 1], p) + (if NamesParent(last, p) then [last.id] else [])
  }

  /** The links after both passes. The ids stand for the shared objects of the map: `children[p]` lists
      the objects pushed into the `replies` array of the object stored under `p`. */
  datatype Links = Links(byId: map<Id, Comment>, children: map<Id, seq<Id>>, roots: seq<Id>) {
    ghost predicate Valid() {
      && children.Keys == byId.Keys
      && (forall p, y :: p in children && y in children[p] ==> y in byId)
      && (forall y :: y in roots ==> y in byId)
    }
  }

  function SpecLinks(comments: seq<Comment>): Links {
    var index := Index(comments);
    Links(index, map p | p in index :: ChildIds(comments, p), RootIds(comments))
  }

  // ---------------------------------------------------------------------------------------------
  // The two passes

  /** The first `forEach`: a copy of every comment, with an empty reply array, stored under its id. */
  method IndexPass(comments: seq<Comment>) returns (byId: map<Id, Comment>, children: map<Id, seq<Id>>)
    ensures byId == Index(comments)
    ensures children == map p | p in byId :: []
  {
    byId := map[];
    children := map[];
    var i := 0;
    while i < |comments|
      invariant 0 <= i <= |comments|
      invariant byId == Index(comments[..i])
      invariant children == map p | p in byId :: []
    {
      assert comments[..i + 1][..i] == comments[..i];
      byId := byId[comments[i].id := comments[i]];
      children := children[comments[i].id := []];
      i := i + 1;
    }
    assert comments[..i] == comments;
  }

  /** The second `forEach`: a comment with a parent is pushed into the reply array of the parent's copy
      (and dropped when the parent is not in the map); one without a parent is pushed into the roots. */
  method LinkPass(comments: seq<Comment>, keys: set<Id>) returns (children: map<Id, seq<Id>>, roots: seq<Id>)
    ensures children.Keys == keys
    ensures forall p :: p in children ==> children[p] == ChildIds(comments, p)
    ensures roots == RootIds(comments)
  {
    children := map p | p in keys :: [];
    roots := [];
    var i := 0;
    while i < |comments|
      invariant 0 <= i <= |comments|
      invariant children.Keys == keys
      invariant forall p :: p in children ==> children[p] == ChildIds(comments[..i], p)
      invariant roots == RootIds(comments[..i])
    {
      var c := comments[i];
      assert comments[..i + 1][..i] == comments[..i];
      if HasParent(c) {
        var p := c.parentCommentId.value;
        if p in children {
          children := children[p := children[p] + [c.id]];
        }
      } else {
        roots := roots + [c.id];
      }
      i := i + 1;
    }
    assert comments[..i] == comments;
  }

  /** Both passes of `buildCommentTree`. */
  method BuildLinks(comments: seq<Comment>) returns (links: Links)
    ensures links == SpecLinks(comments)
  {
    var byId, _ := IndexPass(comments);
    var children, roots := LinkPass(comments, byId.Keys);
    links := Links(byId, children, roots);
    assert children == SpecLinks(comments).children;
  }

  lemma {:induction false} IndexKeys(comments: seq<Comment>)
    ensures forall c :: c in comments ==> c.id in Index(comments)
    ensures forall id :: id in Index(comments) ==> Index(comments)[id] in comments && Index(comments)[id].id == id
  {
    if comments != [] {
      var init := comments[..|comments| - 1];
      IndexKeys(init);
      assert comments == init + [comments[|comments| - 1]];
    }
  }

  lemma {:induction false} RootIdsIn(comments: seq<Comment>)
    ensures forall y :: y in RootIds(comments) ==> exists c :: c in comments && c.id == y && !HasParent(c)
  {
    if comments != [] {
      var init := comments[..|comments| - 1];
      RootIdsIn(init);
      assert comments == init + [comments[|comments| - 1]];
    }
  }

  lemma {:induction false} ChildIdsIn(comments: seq<Comment>, p: Id)
    ensures forall y :: y in ChildIds(comments, p) ==> exists c :: c in comments && c.id == y && NamesParent(c, p)
  {
    if comments != [] {
      var init := comments[..|comments| - 1];
      ChildIdsIn(init, p);
      assert comments == init + [comments[|comments| - 1]];
    }
  }

  lemma SpecLinksValid(comments: seq<Comment>)
    ensures SpecLinks(comments).Valid()
  {
    IndexKeys(comments);
    RootIdsIn(comments);
    forall p | p in Index(comments) {
      ChildIdsIn(comments, p);
    }
  }

  // ---------------------------------------------------------------------------------------------
  // The recursive sort

  function Key(links: Links): Id -> int {
    (id: Id) => if id in links.byId then CreatedKey(links.byId[id]) else 0
  }

  lemma SortedIn(links: Links, ids: seq<Id>)
    requires forall id :: id in ids ==> id in links.byId
    ensures forall id :: id in SortBy(ids, Key(links)) ==> id in links.byId
  {
    forall id | id in SortBy(ids, Key(links)) ensures id in links.byId {
      assert id in multiset(SortBy(ids, Key(links)));
    }
  }

  lemma FewerUnvisited(keys: set<Id>, visiting: set<Id>, id: Id)
    requires id in keys && id !in visiting
    ensures |keys - (visiting + {id})| < |keys - visiting|
  {
    var a, b := keys - (visiting + {id}), keys - visiting;
    assert b == a + {id};
  }

  /** `sortComments`: sort the level by `created_at ?? 0`, then copy each comment with its replies
      sorted the same way. `visiting` holds the ids on the path from a root; meeting one of them again
      is the case where the JavaScript recursion never returns (it overflows the stack), and gives
      `None`. */
  function Forest(links: Links, ids: seq<Id>, visiting: set<Id>): Option<seq<Tree>>
    requires links.Valid()
    requires forall id :: id in ids ==> id in links.byId
    decreases |links.byId.Keys - visiting|, 1, 0
  {
    SortedIn(links, ids);
    Level(links, SortBy(ids, Key(links)), visiting)
  }

  function Level(links: Links, ids: seq<Id>, visiting: set<Id>): Option<seq<Tree>>
    requires links.Valid()
    requires forall id :: id in ids ==> id in links.byId
    decreases |links.byId.Keys - visiting|, 0, |ids|
  {
    if ids == [] then Some([])
    else if ids[0] in visiting then None
    else
      var id := ids[0];
      FewerUnvisited(links.byId.Keys, visiting, id);
      match Forest(links, links.children[id], visiting + {id})
      case None => None
      case Some(replies) =>
        match Level(links, ids[1..], visiting)
        case None => None
        case Some(rest) => Some([Node(links.byId[id], replies)] + rest)
  }

  /** `buildCommentTree`: the forest of the roots, or `None` where the JavaScript never returns. */
  method BuildCommentTree(comments: seq<Comment>) returns (forest: Option<seq<Tree>>)
    ensures forest == CommentForest(comments)
  {
    var links := BuildLinks(comments);
    SpecLinksValid(comments);
    forest := Forest(links, links.roots, {});
  }

  /** The forest a list of comments is threaded into. */
  function CommentForest(comments: seq<Comment>): Option<seq<Tree>> {
    SpecLinksValid(comments);
    Forest(SpecLinks(comments), SpecLinks(comments).roots, {})
  }

  // ---------------------------------------------------------------------------------------------
  // What the forest is: each level is the stable sort of the comments that belong there

  /** No two comments share an id. */
  predicate UniqueIds(comments: seq<Comment>) {
    forall i, j :: 0 <= i < j < |comments| ==> comments[i].id != comments[j].id
  }

  /** The comments without a parent, in input order. */
  function Parentless(comments: seq<Comment>): (r: seq<Comment>)
    ensures forall c :: c in r <==> c in comments && !HasParent(c)
  {
    if comments == [] then []
    else
      var last := comments[|comments| - 1];
      assert comments == comments[..|comments| - 1] + [last];
      Parentless(comments[..|comments| - 1]) + (if HasParent(last) then [] else [last])
  }

  /** The comments naming `p` as their parent, in input order. */
  function RepliesTo(comments: seq<Comment>, p: Id): (r: seq<Comment>)
    ensures forall c :: c in r <==> c in comments && NamesParent(c, p)
  {
    if comments == [] then []
    else
      var last := comments[|comments| - 1];
      assert comments == comments[..|comments| - 1] + [last];
      RepliesTo(comments[..|comments| - 1], p) + (if NamesParent(last, p) then [last] else [])
  }

  /** The comments at the tops of a sequence of trees. */
  function Tops(f: seq<Tree>): (r: seq<Comment>)
    ensures |r| == |f|
    ensures forall i :: 0 <= i < |f| ==> r[i] == f[i].comment
  {
    if f == [] then [] else [f[0].comment] + Tops(f[1..])
  }

  /** Every node's replies are the comments naming it, sorted by `created_at ?? 0`, stable on ties. */
  ghost predicate Threaded(t: Tree, comments: seq<Comment>) {
    && Tops(t.replies) == SortBy(RepliesTo(comments, t.comment.id), CreatedKey)
    && forall r :: r in t.replies ==> Threaded(r, comments)
  }

  function Lookup(byId: map<Id, Comment>, ids: seq<Id>): (r: seq<Comment>)
    requires forall id :: id in ids ==> id in byId
    ensures |r| == |ids|
  {
    if ids == [] then [] else [byId[ids[0]]] + Lookup(byId, ids[1..])
  }

  lemma {:induction false} LookupAppend(byId: map<Id, Comment>, a: seq<Id>, b: seq<Id>)
    requires forall id :: id in a + b ==> id in byId
    ensures Lookup(byId, a + b) == Lookup(byId, a) + Lookup(byId, b)
  {
    if a == [] {
      assert a + b == b;
    } else {
      assert (a + b)[0] == a[0] && (a + b)[1..] == a[1..] + b;
      LookupAppend(byId, a[1..], b);
    }
  }

  lemma LookupCons(byId: map<Id, Comment>, x: Id, t: seq<Id>)
    requires x in byId && forall id :: id in t ==> id in byId
    ensures Lookup(byId, [x] + t) == [byId[x]] + Lookup(byId, t)
  {
    assert ([x] + t)[0] == x && ([x] + t)[1..] == t;
  }

  lemma {:induction false} LookupInsert(links: Links, x: Id, t: seq<Id>)
    requires x in links.byId && forall id :: id in t ==> id in links.byId
    ensures forall id :: id in Insert(x, t, Key(links)) ==> id in links.byId
    ensures Lookup(links.byId, Insert(x, t, Key(links))) == Insert(links.byId[x], Lookup(links.byId, t), CreatedKey)
  {
    var m := links.byId;
    var key := Key(links);
    if t == [] {
      assert Insert(x, t, key) == [x];
      assert Lookup(m, [x]) == [m[x]];
    } else {
      var l := Lookup(m, t);
      assert l[0] == m[t[0]] && l[1..] == Lookup(m, t[1..]);
      assert key(x) == CreatedKey(m[x]) && key(t[0]) == CreatedKey(l[0]);
      if key(x) <= key(t[0]) {
        assert Insert(x, t, key) == [x] + t;
        LookupCons(m, x, t);
      } else {
        LookupInsert(links, x, t[1..]);
        assert Insert(x, t, key) == [t[0]] + Insert(x, t[1..], key);
        LookupCons(m, t[0], Insert(x, t[1..], key));
        assert l == [l[0]] + l[1..];
      }
    }
  }

  /** Looking the ids up commutes with the sort: sorting ids by their comments' keys and sorting the
      comments give the same sequence. */
  lemma {:induction false} LookupSortBy(links: Links, ids: seq<Id>)
    requires forall id :: id in ids ==> id in links.byId
    ensures forall id :: id in SortBy(ids, Key(links)) ==> id in links.byId
    ensures Lookup(links.byId, SortBy(ids, Key(links))) == SortBy(Lookup(links.byId, ids), CreatedKey)
  {
    if ids != [] {
      LookupSortBy(links, ids[1..]);
      LookupInsert(links, ids[0], SortBy(ids[1..], Key(links)));
      assert Lookup(links.byId, ids)[0] == links.byId[ids[0]];
      assert Lookup(links.byId, ids)[1..] == Lookup(links.byId, ids[1..]);
    }
  }

  /** Under unique ids the index maps each id to its one comment. */
  lemma IndexUnique(comments: seq<Comment>, c: Comment)
    requires UniqueIds(comments) && c in comments
    ensures c.id in Index(comments) && Index(comments)[c.id] == c
  {
    IndexKeys(comments);
    var d := Index(comments)[c.id];
    var i :| 0 <= i < |comments| && comments[i] == c;
    var j :| 0 <= j < |comments| && comments[j] == d;
    assert i == j;
  }

  function Ids(cs: seq<Comment>): (r: seq<Id>)
    ensures |r| == |cs|
    ensures forall i :: 0 <= i < |cs| ==> r[i] == cs[i].id
  {
    if cs == [] then [] else [cs[0].id] + Ids(cs[1..])
  }

  lemma IdsAppend(a: seq<Comment>, b: seq<Comment>)
    ensures Ids(a + b) == Ids(a) + Ids(b)
  {
    assert forall i :: 0 <= i < |a + b| ==> Ids(a + b)[i] == (Ids(a) + Ids(b))[i];
  }

  /** Ids of comments that the index maps back to them are looked up as those comments. */
  lemma {:induction false} LookupIds(m: map<Id, Comment>, cs: seq<Comment>)
    requires forall c :: c in cs ==> c.id in m && m[c.id] == c
    ensures forall id :: id in Ids(cs) ==> id in m
    ensures Lookup(m, Ids(cs)) == cs
  {
    if cs != [] {
      assert forall c :: c in cs[1..] ==> c in cs;
      LookupIds(m, cs[1..]);
    }
  }

  lemma {:induction false} RootIdsAreIds(comments: seq<Comment>)
    ensures RootIds(comments) == Ids(Parentless(comments))
  {
    if comments != [] {
      var init, last := comments[..|comments| - 1], comments[|comments| - 1];
      RootIdsAreIds(init);
      IdsAppend(Parentless(init), if HasParent(last) then [] else [last]);
    }
  }

  lemma {:induction false} ChildIdsAreIds(comments: seq<Comment>, p: Id)
    ensures ChildIds(comments, p) == Ids(RepliesTo(comments, p))
  {
    if comments != [] {
      var init, last := comments[..|comments| - 1], comments[|comments| - 1];
      ChildIdsAreIds(init, p);
      IdsAppend(RepliesTo(init, p), if NamesParent(last, p) then [last] else []);
    }
  }

  lemma LookupRootIds(comments: seq<Comment>)
    requires UniqueIds(comments)
    ensures forall id :: id in RootIds(comments) ==> id in Index(comments)
    ensures Lookup(Index(comments), RootIds(comments)) == Parentless(comments)
  {
    RootIdsAreIds(comments);
    forall c | c in Parentless(comments) ensures c.id in Index(comments) && Index(comments)[c.id] == c {
      IndexUnique(comments, c);
    }
    LookupIds(Index(comments), Parentless(comments));
  }

  lemma LookupChildIds(comments: seq<Comment>, p: Id)
    requires UniqueIds(comments)
    ensures forall id :: id in ChildIds(comments, p) ==> id in Index(comments)
    ensures Lookup(Index(comments), ChildIds(comments, p)) == RepliesTo(comments, p)
  {
    ChildIdsAreIds(comments, p);
    forall c | c in RepliesTo(comments, p) ensures c.id in Index(comments) && Index(comments)[c.id] == c {
      IndexUnique(comments, c);
    }
    LookupIds(Index(comments), RepliesTo(comments, p));
  }

  lemma {:induction false} ForestShape(comments: seq<Comment>, ids: seq<Id>, visiting: set<Id>, f: seq<Tree>)
    requires UniqueIds(comments) && SpecLinks(comments).Valid()
    requires forall id :: id in ids ==> id in Index(comments)
    requires Forest(SpecLinks(comments), ids, visiting) == Some(f)
    ensures Tops(f) == SortBy(Lookup(Index(comments), ids), CreatedKey)
    ensures forall t :: t in f ==> Threaded(t, comments)
    decreases |Index(comments).Keys - visiting|, 1, 0
  {
    var links := SpecLinks(comments);
    LookupSortBy(links, ids);
    LevelShape(comments, SortBy(ids, Key(links)), visiting, f);
  }

  lemma {:induction false} LevelShape(comments: seq<Comment>, ids: seq<Id>, visiting: set<Id>, f: seq<Tree>)
    requires UniqueIds(comments) && SpecLinks(comments).Valid()
    requires forall id :: id in ids ==> id in Index(comments)
    requires Level(SpecLinks(comments), ids, visiting) == Some(f)
    ensures Tops(f) == Lookup(Index(comments), ids)
    ensures forall t :: t in f ==> Threaded(t, comments)
    decreases |Index(comments).Keys - visiting|, 0, |ids|
  {
    var links := SpecLinks(comments);
    if ids != [] {
      var id := ids[0];
      FewerUnvisited(links.byId.Keys, visiting, id);
      var replies := Forest(links, links.children[id], visiting + {id}).value;
      var rest := Level(links, ids[1..], visiting).value;
      var node := Node(links.byId[id], replies);
      assert f == [node] + rest;
      LookupChildIds(comments, id);
      ForestShape(comments, links.children[id], visiting + {id}, replies);
      LevelShape(comments, ids[1..], visiting, rest);
      IndexKeys(comments);
      assert Threaded(node, comments);
      assert Tops(f)[1..] == Tops(rest);
    }
  }

  /** The forest, when there is one, is fully determined: its top level is the stable sort of the
      comments without a parent, and below every node are the stable sort of the comments naming it. */
  lemma CommentForestShape(comments: seq<Comment>)
    requires UniqueIds(comments)
    requires CommentForest(comments).Some?
    ensures Tops(CommentForest(comments).value) == SortBy(Parentless(comments), CreatedKey)
    ensures forall t :: t in CommentForest(comments).value ==> Threaded(t, comments)
  {
    SpecLinksValid(comments);
    LookupRootIds(comments);
    ForestShape(comments, RootIds(comments), {}, CommentForest(comments).value);
  }

  // ---------------------------------------------------------------------------------------------
  // Every comment exactly once, when the parent links are acyclic and lead back to a root

  /** The comments of a forest, parents before their replies. */
  function Flatten(f: seq<Tree>): seq<Comment>
    decreases f
  {
    if f == [] then [] else [f[0].comment] + Flatten(f[0].replies) + Flatten(f[1..])
  }

  /** Every parent id names a comment of the list, and `rank` strictly grows from a parent to its
      replies: the parent links contain no cycle and no dangling parent. */
  ghost predicate Rooted(comments: seq<Comment>, rank: Id -> nat) {
    forall c :: c in comments && HasParent(c) ==>
      c.parentCommentId.value in Index(comments) && rank(c.parentCommentId.value) < rank(c.id)
  }

  /** `a` is the id of `c` or of one of its ancestors. */
  ghost predicate AncOrSelf(comments: seq<Comment>, rank: Id -> nat, a: Id, c: Comment)
    requires Rooted(comments, rank) && c in comments
    decreases rank(c.id)
  {
    a == c.id
    || (HasParent(c) && (IndexKeys(comments); AncOrSelf(comments, rank, a, Index(comments)[c.parentCommentId.value])))
  }

  /** `c` sits at the level `parent` names: the top (`None`) or the replies of `p` (`Some(p)`). */
  predicate ParentIs(c: Comment, parent: Option<Id>) {
    if parent.None? then !HasParent(c) else NamesParent(c, parent.value)
  }

  ghost predicate NoDup(s: seq<Comment>) {
    forall x :: multiset(s)[x] <= 1
  }

  lemma {:induction false} UniqueNoDup(comments: seq<Comment>)
    requires UniqueIds(comments)
    ensures NoDup(comments)
  {
    if comments != [] {
      var init, last := comments[..|comments| - 1], comments[|comments| - 1];
      assert comments == init + [last];
      assert UniqueIds(init);
      UniqueNoDup(init);
      assert last !in init;
    }
  }

  lemma {:induction false} RepliesToSub(comments: seq<Comment>, p: Id)
    ensures multiset(RepliesTo(comments, p)) <= multiset(comments)
  {
    if comments != [] {
      var init, last := comments[..|comments| - 1], comments[|comments| - 1];
      assert comments == init + [last];
      RepliesToSub(init, p);
    }
  }

  lemma {:induction false} ParentlessSub(comments: seq<Comment>)
    ensures multiset(Parentless(comments)) <= multiset(comments)
  {
    if comments != [] {
      var init, last := comments[..|comments| - 1], comments[|comments| - 1];
      assert comments == init + [last];
      ParentlessSub(init);
    }
  }

  lemma {:induction false} AncRank(comments: seq<Comment>, rank: Id -> nat, a: Id, c: Comment)
    requires Rooted(comments, rank) && c in comments && AncOrSelf(comments, rank, a, c)
    ensures rank(a) <= rank(c.id)
    ensures a in Index(comments) && Index(comments)[a] in comments
    decreases rank(c.id)
  {
    IndexKeys(comments);
    if a != c.id {
      AncRank(comments, rank, a, Index(comments)[c.parentCommentId.value]);
    }
  }

  /** The parent of an ancestor-or-self is an ancestor. */
  lemma {:induction false} AncParent(comments: seq<Comment>, rank: Id -> nat, b: Id, a: Id, c: Comment)
    requires UniqueIds(comments) && Rooted(comments, rank) && c in comments
    requires b in Index(comments) && NamesParent(Index(comments)[b], a)
    requires AncOrSelf(comments, rank, b, c)
    ensures AncOrSelf(comments, rank, a, c)
    decreases rank(c.id)
  {
    IndexKeys(comments);
    if b == c.id {
      IndexUnique(comments, c);
      assert AncOrSelf(comments, rank, a, Index(comments)[a]);
    } else {
      AncParent(comments, rank, b, a, Index(comments)[c.parentCommentId.value]);
    }
  }

  /** The ancestors of a comment form a chain. */
  lemma {:induction false} AncLinear(comments: seq<Comment>, rank: Id -> nat, a: Id, b: Id, c: Comment)
    requires UniqueIds(comments) && Rooted(comments, rank) && c in comments
    requires AncOrSelf(comments, rank, a, c) && AncOrSelf(comments, rank, b, c)
    ensures a in Index(comments) && b in Index(comments)
    ensures Index(comments)[a] in comments && Index(comments)[b] in comments
    ensures AncOrSelf(comments, rank, a, Index(comments)[b]) || AncOrSelf(comments, rank, b, Index(comments)[a])
    decreases rank(c.id)
  {
    IndexKeys(comments);
    AncRank(comments, rank, a, c);
    AncRank(comments, rank, b, c);
    IndexUnique(comments, c);
    if a != c.id && b != c.id {
      AncLinear(comments, rank, a, b, Index(comments)[c.parentCommentId.value]);
    }
  }

  /** Two comments at the same level are never one above the other. */
  lemma SameLevelApart(comments: seq<Comment>, rank: Id -> nat, r1: Comment, r2: Comment, parent: Option<Id>)
    requires UniqueIds(comments) && Rooted(comments, rank) && r1 in comments && r2 in comments
    requires ParentIs(r1, parent) && ParentIs(r2, parent)
    requires AncOrSelf(comments, rank, r1.id, r2)
    ensures r1 == r2
  {
    IndexKeys(comments);
    IndexUnique(comments, r1);
    IndexUnique(comments, r2);
    if r1.id != r2.id {
      AncRank(comments, rank, r1.id, Index(comments)[r2.parentCommentId.value]);
    }
  }

  /** Every comment lies below a comment without a parent. */
  lemma {:induction false} RootAbove(comments: seq<Comment>, rank: Id -> nat, c: Comment)
    requires Rooted(comments, rank) && c in comments
    ensures exists r :: r in comments && !HasParent(r) && AncOrSelf(comments, rank, r.id, c)
    decreases rank(c.id)
  {
    IndexKeys(comments);
    if HasParent(c) {
      RootAbove(comments, rank, Index(comments)[c.parentCommentId.value]);
    } else {
      assert AncOrSelf(comments, rank, c.id, c);
    }
  }

  /** Below a proper ancestor, the path to `c` goes through one of its replies. */
  lemma {:induction false} ChildOnPath(comments: seq<Comment>, rank: Id -> nat, a: Id, c: Comment)
    requires Rooted(comments, rank) && c in comments
    requires AncOrSelf(comments, rank, a, c) && a != c.id
    ensures exists r :: r in comments && NamesParent(r, a) && AncOrSelf(comments, rank, r.id, c)
    decreases rank(c.id)
  {
    IndexKeys(comments);
    var pc := Index(comments)[c.parentCommentId.value];
    if a == pc.id {
      assert AncOrSelf(comments, rank, c.id, c);
    } else {
      ChildOnPath(comments, rank, a, pc);
      var r :| r in comments && NamesParent(r, a) && AncOrSelf(comments, rank, r.id, pc);
      assert AncOrSelf(comments, rank, r.id, c);
    }
  }

  /** The replies of a threaded node are comments of the list that name it, with no repeats. */
  lemma RepliesOf(comments: seq<Comment>, t: Tree)
    requires UniqueIds(comments) && Threaded(t, comments)
    ensures forall r :: r in t.replies ==> r.comment in comments && NamesParent(r.comment, t.comment.id)
    ensures NoDup(Tops(t.replies))
    ensures forall r :: r in comments && NamesParent(r, t.comment.id) ==> r in Tops(t.replies)
  {
    var tops := Tops(t.replies);
    var sorted := SortBy(RepliesTo(comments, t.comment.id), CreatedKey);
    assert multiset(tops) == multiset(RepliesTo(comments, t.comment.id));
    RepliesToSub(comments, t.comment.id);
    UniqueNoDup(comments);
    forall r | r in t.replies ensures r.comment in comments && NamesParent(r.comment, t.comment.id) {
      var i :| 0 <= i < |t.replies| && t.replies[i] == r;
      assert tops[i] == r.comment;
      assert r.comment in multiset(tops);
    }
    forall r | r in comments && NamesParent(r, t.comment.id) ensures r in tops {
      assert r in multiset(RepliesTo(comments, t.comment.id));
    }
  }

  /** The comments of a threaded forest come from the list. */
  lemma {:induction false} FlattenIn(comments: seq<Comment>, f: seq<Tree>)
    requires UniqueIds(comments)
    requires forall t :: t in f ==> Threaded(t, comments) && t.comment in comments
    ensures forall c :: c in Flatten(f) ==> c in comments
    decreases f
  {
    if f != [] {
      RepliesOf(comments, f[0]);
      FlattenIn(comments, f[0].replies);
      assert forall t :: t in f[1..] ==> t in f;
      FlattenIn(comments, f[1..]);
    }
  }

  /** Some tree of the level lies above `c`. */
  ghost predicate Above(comments: seq<Comment>, rank: Id -> nat, f: seq<Tree>, c: Comment)
    requires Rooted(comments, rank) && c in comments
  {
    exists t :: t in f && AncOrSelf(comments, rank, t.comment.id, c)
  }

  /** An element at two positions occurs at least twice. */
  lemma NoDupApart(s: seq<Comment>, i: int, j: int)
    requires 0 <= i < |s| && 0 <= j < |s| && i != j
    ensures s[i] == s[j] ==> multiset(s)[s[i]] >= 2
  {
    if s[i] == s[j] {
      var x := s[i];
      assert multiset(s) == multiset(s[..i]) + multiset{x} + multiset(s[i + 1..]) by {
        assert s == s[..i] + [x] + s[i + 1..];
      }
      if i < j {
        assert s[i + 1..][j - i - 1] == x;
        assert x in multiset(s[i + 1..]);
      } else {
        assert s[..i][j] == x;
        assert x in multiset(s[..i]);
      }
    }
  }

  /** No reply of `c` lies above `c`. */
  lemma NodeSelf(comments: seq<Comment>, rank: Id -> nat, t: Tree)
    requires UniqueIds(comments) && Rooted(comments, rank)
    requires Threaded(t, comments) && t.comment in comments
    ensures !Above(comments, rank, t.replies, t.comment)
  {
    RepliesOf(comments, t);
    if Above(comments, rank, t.replies, t.comment) {
      var r :| r in t.replies && AncOrSelf(comments, rank, r.comment.id, t.comment);
      AncRank(comments, rank, r.comment.id, t.comment);
    }
  }

  /** A node lies above `c` when one of its replies does. */
  lemma RepliesAbove(comments: seq<Comment>, rank: Id -> nat, t: Tree, c: Comment)
    requires UniqueIds(comments) && Rooted(comments, rank) && c in comments
    requires Threaded(t, comments) && t.comment in comments
    requires Above(comments, rank, t.replies, c)
    ensures AncOrSelf(comments, rank, t.comment.id, c)
  {
    RepliesOf(comments, t);
    var r :| r in t.replies && AncOrSelf(comments, rank, r.comment.id, c);
    IndexUnique(comments, r.comment);
    AncParent(comments, rank, r.comment.id, t.comment.id, c);
  }

  /** A node strictly above `c` has a reply that lies above `c`. */
  lemma AboveReplies(comments: seq<Comment>, rank: Id -> nat, t: Tree, c: Comment)
    requires UniqueIds(comments) && Rooted(comments, rank) && c in comments
    requires Threaded(t, comments) && t.comment in comments && t.comment.id != c.id
    requires AncOrSelf(comments, rank, t.comment.id, c)
    ensures Above(comments, rank, t.replies, c)
  {
    RepliesOf(comments, t);
    ChildOnPath(comments, rank, t.comment.id, c);
    var r0 :| r0 in comments && NamesParent(r0, t.comment.id) && AncOrSelf(comments, rank, r0.id, c);
    var i :| 0 <= i < |t.replies| && Tops(t.replies)[i] == r0;
    assert t.replies[i] in t.replies;
  }

  /** Of two comments at one level, at most one lies above `c`. */
  lemma SameLevelAbove(comments: seq<Comment>, rank: Id -> nat, r1: Comment, r2: Comment, parent: Option<Id>, c: Comment)
    requires UniqueIds(comments) && Rooted(comments, rank) && r1 in comments && r2 in comments && c in comments
    requires ParentIs(r1, parent) && ParentIs(r2, parent)
    ensures AncOrSelf(comments, rank, r1.id, c) && AncOrSelf(comments, rank, r2.id, c) ==> r1 == r2
  {
    if AncOrSelf(comments, rank, r1.id, c) && AncOrSelf(comments, rank, r2.id, c) {
      AncLinear(comments, rank, r1.id, r2.id, c);
      IndexUnique(comments, r1);
      IndexUnique(comments, r2);
      if AncOrSelf(comments, rank, r1.id, r2) {
        SameLevelApart(comments, rank, r1, r2, parent);
      } else {
        SameLevelApart(comments, rank, r2, r1, parent);
      }
    }
  }

  /** A later tree of a level does not lie above `c` when the first one does. */
  lemma LaterNotAbove(comments: seq<Comment>, rank: Id -> nat, f: seq<Tree>, parent: Option<Id>, c: Comment, j: int)
    requires UniqueIds(comments) && Rooted(comments, rank) && c in comments && 0 < j < |f|
    requires forall t :: t in f ==> t.comment in comments && ParentIs(t.comment, parent)
    requires NoDup(Tops(f))
    requires AncOrSelf(comments, rank, f[0].comment.id, c)
    ensures !AncOrSelf(comments, rank, f[j].comment.id, c)
  {
    NoDupApart(Tops(f), 0, j);
    SameLevelAbove(comments, rank, f[0].comment, f[j].comment, parent, c);
  }

  /** Two trees of one level never both lie above `c`. */
  lemma LevelExclusive(comments: seq<Comment>, rank: Id -> nat, f: seq<Tree>, parent: Option<Id>, c: Comment)
    requires UniqueIds(comments) && Rooted(comments, rank) && c in comments && f != []
    requires forall t :: t in f ==> t.comment in comments && ParentIs(t.comment, parent)
    requires NoDup(Tops(f))
    requires AncOrSelf(comments, rank, f[0].comment.id, c)
    ensures !Above(comments, rank, f[1..], c)
  {
    forall j | 0 < j < |f| ensures !AncOrSelf(comments, rank, f[j].comment.id, c) {
      LaterNotAbove(comments, rank, f, parent, c, j);
    }
    assert forall t :: t in f[1..] ==> exists j :: 0 < j < |f| && f[j] == t;
  }

  /** One node: the node itself or one of its reply subtrees holds `c` exactly when the node lies
      above `c`, and never both. */
  lemma NodeCount(comments: seq<Comment>, rank: Id -> nat, t: Tree, c: Comment)
    requires UniqueIds(comments) && Rooted(comments, rank) && c in comments
    requires Threaded(t, comments) && t.comment in comments
    ensures (if t.comment == c then 1 else 0) + (if Above(comments, rank, t.replies, c) then 1 else 0)
         == (if AncOrSelf(comments, rank, t.comment.id, c) then 1 else 0)
  {
    IndexUnique(comments, t.comment);
    IndexUnique(comments, c);
    if t.comment == c {
      NodeSelf(comments, rank, t);
    } else if AncOrSelf(comments, rank, t.comment.id, c) {
      AboveReplies(comments, rank, t, c);
    } else if Above(comments, rank, t.replies, c) {
      RepliesAbove(comments, rank, t, c);
    }
  }

  lemma FlattenCons(f: seq<Tree>, c: Comment)
    requires f != []
    ensures multiset(Flatten(f))[c]
         == (if f[0].comment == c then 1 else 0) + multiset(Flatten(f[0].replies))[c] + multiset(Flatten(f[1..]))[c]
  {
    assert multiset(Flatten(f)) == multiset([f[0].comment]) + multiset(Flatten(f[0].replies)) + multiset(Flatten(f[1..]));
  }

  lemma AboveCons(comments: seq<Comment>, rank: Id -> nat, f: seq<Tree>, c: Comment)
    requires Rooted(comments, rank) && c in comments && f != []
    ensures Above(comments, rank, f, c)
        <==> AncOrSelf(comments, rank, f[0].comment.id, c) || Above(comments, rank, f[1..], c)
  {
    assert forall t :: t in f <==> t == f[0] || t in f[1..] by {
      assert f == [f[0]] + f[1..];
    }
  }

  lemma RestNoDup(f: seq<Tree>)
    requires f != [] && NoDup(Tops(f))
    ensures NoDup(Tops(f[1..]))
  {
    assert Tops(f) == [f[0].comment] + Tops(f[1..]);
    assert multiset(Tops(f)) == multiset{f[0].comment} + multiset(Tops(f[1..]));
    forall x ensures multiset(Tops(f[1..]))[x] <= 1 {
      assert multiset(Tops(f[1..]))[x] <= multiset(Tops(f))[x];
    }
  }

  /** In a threaded level, `c` occurs once if some tree of the level lies above it and not at all
      otherwise. */
  lemma {:induction false} FlattenCount(comments: seq<Comment>, rank: Id -> nat, f: seq<Tree>, parent: Option<Id>, c: Comment)
    requires UniqueIds(comments) && Rooted(comments, rank) && c in comments
    requires forall t :: t in f ==> Threaded(t, comments) && t.comment in comments && ParentIs(t.comment, parent)
    requires NoDup(Tops(f))
    ensures multiset(Flatten(f))[c] == if Above(comments, rank, f, c) then 1 else 0
    decreases f
  {
    if f != [] {
      var t, rest := f[0], f[1..];
      RestNoDup(f);
      assert t in f && forall u :: u in rest ==> u in f;
      RepliesOf(comments, t);
      assert forall r :: r in t.replies ==> Threaded(r, comments);
      FlattenCount(comments, rank, t.replies, Some(t.comment.id), c);
      FlattenCount(comments, rank, rest, parent, c);
      NodeCount(comments, rank, t, c);
      if AncOrSelf(comments, rank, t.comment.id, c) {
        LevelExclusive(comments, rank, f, parent, c);
      }
      AboveCons(comments, rank, f, c);
      FlattenCons(f, c);
    }
  }

  /** Every id of `ids` is indexed and ranks above every id in `visiting`. */
  ghost predicate Outrank(comments: seq<Comment>, rank: Id -> nat, ids: seq<Id>, visiting: set<Id>) {
    && (forall id :: id in ids ==> id in Index(comments))
    && (forall id, v :: id in ids && v in visiting ==> rank(v) < rank(id))
  }

  lemma {:induction false} ForestSome(comments: seq<Comment>, rank: Id -> nat, ids: seq<Id>, visiting: set<Id>)
    requires Rooted(comments, rank) && SpecLinks(comments).Valid()
    requires Outrank(comments, rank, ids, visiting)
    ensures Forest(SpecLinks(comments), ids, visiting).Some?
    decreases |Index(comments).Keys - visiting|, 1, 0
  {
    var sorted := SortBy(ids, Key(SpecLinks(comments)));
    assert forall id :: id in sorted ==> id in ids by {
      forall id | id in sorted ensures id in ids {
        assert id in multiset(sorted);
      }
    }
    assert Outrank(comments, rank, sorted, visiting);
    LevelSome(comments, rank, sorted, visiting);
  }

  /** The head of an outranking sequence outranks the visited ids, and so does its tail. */
  lemma OutrankHead(comments: seq<Comment>, rank: Id -> nat, ids: seq<Id>, visiting: set<Id>)
    requires ids != [] && Outrank(comments, rank, ids, visiting)
    ensures ids[0] in Index(comments) && ids[0] !in visiting
    ensures forall v :: v in visiting ==> rank(v) < rank(ids[0])
    ensures Outrank(comments, rank, ids[1..], visiting)
  {
    assert ids[0] in ids;
    assert forall y :: y in ids[1..] ==> y in ids;
  }

  lemma {:induction false} LevelSome(comments: seq<Comment>, rank: Id -> nat, ids: seq<Id>, visiting: set<Id>)
    requires Rooted(comments, rank) && SpecLinks(comments).Valid()
    requires Outrank(comments, rank, ids, visiting)
    ensures Level(SpecLinks(comments), ids, visiting).Some?
    decreases |Index(comments).Keys - visiting|, 0, |ids|
  {
    var links := SpecLinks(comments);
    if ids != [] {
      var id := ids[0];
      OutrankHead(comments, rank, ids, visiting);
      FewerUnvisited(links.byId.Keys, visiting, id);
      ChildrenOutrank(comments, rank, id, visiting);
      ForestSome(comments, rank, links.children[id], visiting + {id});
      LevelSome(comments, rank, ids[1..], visiting);
    }
  }

  /** The replies of a comment are indexed and rank above it and above every comment it outranks. */
  lemma ChildrenOutrank(comments: seq<Comment>, rank: Id -> nat, id: Id, visiting: set<Id>)
    requires Rooted(comments, rank) && SpecLinks(comments).Valid() && id in Index(comments)
    requires forall v :: v in visiting ==> rank(v) < rank(id)
    ensures Outrank(comments, rank, SpecLinks(comments).children[id], visiting + {id})
  {
    ChildIdsIn(comments, id);
    forall y, v | y in SpecLinks(comments).children[id] && v in visiting + {id} ensures rank(v) < rank(y) {
      var c :| c in comments && c.id == y && NamesParent(c, id);
    }
  }

  /** The top level of the forest: the comments without a parent, each once. */
  lemma TopLevel(comments: seq<Comment>, f: seq<Tree>)
    requires UniqueIds(comments) && Tops(f) == SortBy(Parentless(comments), CreatedKey)
    ensures forall t :: t in f ==> t.comment in comments && ParentIs(t.comment, None)
    ensures NoDup(Tops(f))
    ensures forall r :: r in comments && !HasParent(r) ==> r in Tops(f)
  {
    ParentlessSub(comments);
    UniqueNoDup(comments);
    assert multiset(Tops(f)) == multiset(Parentless(comments));
    forall t | t in f ensures t.comment in comments && ParentIs(t.comment, None) {
      var i :| 0 <= i < |f| && f[i] == t;
      assert Tops(f)[i] == t.comment;
      assert t.comment in multiset(Parentless(comments));
    }
    forall r | r in comments && !HasParent(r) ensures r in Tops(f) {
      assert r in multiset(Parentless(comments));
    }
  }

  lemma FlattenMember(f: seq<Tree>, x: Comment)
    requires f != []
    ensures x in Flatten(f) <==> x == f[0].comment || x in Flatten(f[0].replies) || x in Flatten(f[1..])
  {
  }

  lemma TopsMember(f: seq<Tree>, x: Comment)
    ensures x in Tops(f) <==> exists t :: t in f && t.comment == x
  {
    if x in Tops(f) {
      var i :| 0 <= i < |f| && Tops(f)[i] == x;
      assert f[i] in f;
    }
  }

  /** When the ids are unique and every parent link leads back to a comment without a parent, the
      forest exists and holds every comment exactly once. */
  lemma EveryCommentOnce(comments: seq<Comment>, rank: Id -> nat)
    requires UniqueIds(comments) && Rooted(comments, rank)
    ensures CommentForest(comments).Some?
    ensures multiset(Flatten(CommentForest(comments).value)) == multiset(comments)
  {
    SpecLinksValid(comments);
    LookupRootIds(comments);
    assert Outrank(comments, rank, RootIds(comments), {});
    ForestSome(comments, rank, RootIds(comments), {});
    var f := CommentForest(comments).value;
    CommentForestShape(comments);
    TopLevel(comments, f);
    SameMultiset(comments, rank, f);
  }

  lemma SameMultiset(comments: seq<Comment>, rank: Id -> nat, f: seq<Tree>)
    requires UniqueIds(comments) && Rooted(comments, rank)
    requires forall t :: t in f ==> Threaded(t, comments) && t.comment in comments && ParentIs(t.comment, None)
    requires NoDup(Tops(f))
    requires forall r :: r in comments && !HasParent(r) ==> r in Tops(f)
    ensures multiset(Flatten(f)) == multiset(comments)
  {
    UniqueNoDup(comments);
    FlattenIn(comments, f);
    forall x ensures multiset(Flatten(f))[x] == multiset(comments)[x] {
      if x in comments {
        OnceIn(comments, rank, f, x);
        assert x in multiset(comments);
        assert multiset(comments)[x] <= 1;
      } else {
        assert x !in multiset(comments);
        assert x !in Flatten(f);
        assert x !in multiset(Flatten(f));
      }
    }
  }

  lemma OnceIn(comments: seq<Comment>, rank: Id -> nat, f: seq<Tree>, x: Comment)
    requires UniqueIds(comments) && Rooted(comments, rank) && x in comments
    requires forall t :: t in f ==> Threaded(t, comments) && t.comment in comments && ParentIs(t.comment, None)
    requires NoDup(Tops(f))
    requires forall r :: r in comments && !HasParent(r) ==> r in Tops(f)
    ensures multiset(Flatten(f))[x] == 1
  {
    FlattenCount(comments, rank, f, None, x);
    RootAbove(comments, rank, x);
    var r :| r in comments && !HasParent(r) && AncOrSelf(comments, rank, r.id, x);
    TopsMember(f, r);
  }

  /** The comments of a forest are each at its top or a reply to a comment of the list. */
  lemma {:induction false} FlattenLinked(comments: seq<Comment>, f: seq<Tree>)
    requires UniqueIds(comments)
    requires forall t :: t in f ==> Threaded(t, comments) && t.comment in comments
    ensures forall x :: x in Flatten(f) ==>
      x in Tops(f) || (HasParent(x) && x.parentCommentId.value in Index(comments))
    decreases f
  {
    if f != [] {
      var t, rest := f[0], f[1..];
      RepliesOf(comments, t);
      FlattenLinked(comments, t.replies);
      assert forall u :: u in rest ==> u in f;
      FlattenLinked(comments, rest);
      IndexKeys(comments);
      forall x | x in Flatten(f) ensures x in Tops(f) || (HasParent(x) && x.parentCommentId.value in Index(comments)) {
        FlattenMember(f, x);
        TopsMember(f, x);
        TopsMember(rest, x);
        TopsMember(t.replies, x);
      }
    }
  }

  /** A comment whose parent id names no comment of the list appears nowhere in the forest. */
  lemma OrphanDropped(comments: seq<Comment>, c: Comment)
    requires UniqueIds(comments) && CommentForest(comments).Some?
    requires HasParent(c) && forall d :: d in comments ==> d.id != c.parentCommentId.value
    ensures c !in Flatten(CommentForest(comments).value)
  {
    var f := CommentForest(comments).value;
    CommentForestShape(comments);
    IndexKeys(comments);
    TopLevel(comments, f);
    FlattenLinked(comments, f);
    TopsMember(f, c);
  }

  // ---------------------------------------------------------------------------------------------
  // With unique ids the recursion always returns

  /** `path` is a chain of distinct comments from one without a parent, each naming the one before. */
  ghost predicate IsPath(comments: seq<Comment>, path: seq<Id>) {
    && (forall i :: 0 <= i < |path| ==> path[i] in Index(comments))
    && (forall i, j :: 0 <= i < j < |path| ==> path[i] != path[j])
    && (path != [] ==> !HasParent(Index(comments)[path[0]]))
    && (forall i :: 0 < i < |path| ==> NamesParent(Index(comments)[path[i]], path[i - 1]))
  }

  /** The level below the end of a path. */
  function Below(path: seq<Id>): Option<Id> {
    if path == [] then None else Some(path[|path| - 1])
  }

  /** A comment of the level below a path is not on it. */
  lemma NotOnPath(comments: seq<Comment>, path: seq<Id>, y: Id)
    requires IsPath(comments, path) && y in Index(comments) && ParentIs(Index(comments)[y], Below(path))
    ensures y !in path
  {
    forall k | 0 <= k < |path| ensures path[k] != y {
      if k > 0 {
        assert NamesParent(Index(comments)[path[k]], path[k - 1]);
      }
    }
  }

  lemma PathExtend(comments: seq<Comment>, path: seq<Id>, y: Id)
    requires IsPath(comments, path) && y in Index(comments) && ParentIs(Index(comments)[y], Below(path))
    requires y !in path
    ensures IsPath(comments, path + [y]) && Below(path + [y]) == Some(y)
  {
    var p := path + [y];
    assert forall i :: 0 <= i < |path| ==> p[i] == path[i];
    assert p[|path|] == y;
  }

  lemma {:induction false} ForestExistsFrom(comments: seq<Comment>, ids: seq<Id>, visiting: set<Id>, path: seq<Id>)
    requires UniqueIds(comments) && SpecLinks(comments).Valid()
    requires forall id :: id in ids ==> id in Index(comments) && ParentIs(Index(comments)[id], Below(path))
    requires IsPath(comments, path) && forall v :: v in visiting <==> v in path
    ensures Forest(SpecLinks(comments), ids, visiting).Some?
    decreases |Index(comments).Keys - visiting|, 1, 0
  {
    var sorted := SortBy(ids, Key(SpecLinks(comments)));
    assert forall id :: id in sorted ==> id in ids by {
      forall id | id in sorted ensures id in ids {
        assert id in multiset(sorted);
      }
    }
    LevelExistsFrom(comments, sorted, visiting, path);
  }

  lemma {:induction false} LevelExistsFrom(comments: seq<Comment>, ids: seq<Id>, visiting: set<Id>, path: seq<Id>)
    requires UniqueIds(comments) && SpecLinks(comments).Valid()
    requires forall id :: id in ids ==> id in Index(comments) && ParentIs(Index(comments)[id], Below(path))
    requires IsPath(comments, path) && forall v :: v in visiting <==> v in path
    ensures Level(SpecLinks(comments), ids, visiting).Some?
    decreases |Index(comments).Keys - visiting|, 0, |ids|
  {
    var links := SpecLinks(comments);
    if ids != [] {
      var id := ids[0];
      assert id in ids;
      NotOnPath(comments, path, id);
      FewerUnvisited(links.byId.Keys, visiting, id);
      PathExtend(comments, path, id);
      ChildLevel(comments, id);
      assert forall v :: v in visiting + {id} <==> v in path + [id];
      assert forall y :: y in ids[1..] ==> y in ids;
      ForestExistsFrom(comments, links.children[id], visiting + {id}, path + [id]);
      LevelExistsFrom(comments, ids[1..], visiting, path);
      LevelStep(links, ids, visiting);
    }
  }

  lemma LevelStep(links: Links, ids: seq<Id>, visiting: set<Id>)
    requires links.Valid() && ids != [] && ids[0] !in visiting
    requires forall id :: id in ids ==> id in links.byId
    requires Forest(links, links.children[ids[0]], visiting + {ids[0]}).Some?
    requires Level(links, ids[1..], visiting).Some?
    ensures Level(links, ids, visiting).Some?
  {
  }

  /** Under unique ids, the children recorded for `p` are the comments naming `p`. */
  lemma ChildLevel(comments: seq<Comment>, p: Id)
    requires UniqueIds(comments) && p in Index(comments)
    ensures forall y :: y in SpecLinks(comments).children[p] ==>
      y in Index(comments) && ParentIs(Index(comments)[y], Some(p))
  {
    ChildIdsIn(comments, p);
    forall y | y in ChildIds(comments, p) ensures y in Index(comments) && ParentIs(Index(comments)[y], Some(p)) {
      var c :| c in comments && c.id == y && NamesParent(c, p);
      IndexUnique(comments, c);
    }
  }

  /** With unique ids the forest always exists: cycles and dangling parents only drop comments. */
  lemma ForestExists(comments: seq<Comment>)
    requires UniqueIds(comments)
    ensures CommentForest(comments).Some?
  {
    SpecLinksValid(comments);
    RootIdsIn(comments);
    forall y | y in RootIds(comments) ensures y in Index(comments) && ParentIs(Index(comments)[y], None) {
      var c :| c in comments && c.id == y && !HasParent(c);
      IndexUnique(comments, c);
    }
    ForestExistsFrom(comments, RootIds(comments), {}, []);
  }

  // ---------------------------------------------------------------------------------------------
  // Order of siblings

  /** Each level is sorted oldest first (null as 0), and comments with equal keys keep their input
      order. */
  lemma LevelOrder(level: seq<Tree>, source: seq<Comment>)
    requires Tops(level) == SortBy(source, CreatedKey)
    ensures SortedBy(Tops(level), CreatedKey)
    ensures forall k :: WithKey(Tops(level), CreatedKey, k) == WithKey(source, CreatedKey, k)
  {
    SortBySorted(source, CreatedKey);
    forall k ensures WithKey(Tops(level), CreatedKey, k) == WithKey(source, CreatedKey, k) {
      SortByStable(source, CreatedKey, k);
    }
  }

  /** The top level and the replies of every node of the forest are in that order. */
  lemma SiblingsOrdered(comments: seq<Comment>, t: Tree)
    requires UniqueIds(comments) && CommentForest(comments).Some?
    ensures SortedBy(Tops(CommentForest(comments).value), CreatedKey)
    ensures forall k :: WithKey(Tops(CommentForest(comments).value), CreatedKey, k) == WithKey(Parentless(comments), CreatedKey, k)
    ensures Threaded(t, comments) ==> SortedBy(Tops(t.replies), CreatedKey)
    ensures Threaded(t, comments) ==>
      forall k :: WithKey(Tops(t.replies), CreatedKey, k) == WithKey(RepliesTo(comments, t.comment.id), CreatedKey, k)
  {
    CommentForestShape(comments);
    LevelOrder(CommentForest(comments).value, Parentless(comments));
    if Threaded(t, comments) {
      LevelOrder(t.replies, RepliesTo(comments, t.comment.id));
    }
  }
}
