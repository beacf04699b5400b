/** The other rules of the comment validation file: reply depth, content sanitising and the two
    comment schemas. */
module CommentRules {
  import opened Wrappers
  import opened Text
  import opened CommentTree
  import opened SessionValidation

  // ---- validateCommentDepth ----

  /** `getDepth(comment, currentDepth)`: a leaf is at `currentDepth`; otherwise the deepest of its
      replies, each one level further down. */
  function GetDepth(t: Tree, current: int): int
    decreases t, 1
  {
    if t.replies == [] then current else DeepestOf(t.replies, current + 1)
  }

  /** `Math.max(...replies.map(reply => getDepth(reply, current)))` for a non-empty list. */
  function DeepestOf(f: seq<Tree>, current: int): int
    requires f != []
    decreases f, 0
  {
    if |f| == 1 then GetDepth(f[0], current)
    else
      var a, b := GetDepth(f[0], current), DeepestOf(f[1..], current);
      if a >= b then a else b
  }

  /** Every path from `t` down to a leaf has at most `k` reply edges. */
  ghost predicate HeightAtMost(t: Tree, k: int)
    decreases t
  {
    k >= 0 && forall r :: r in t.replies ==> HeightAtMost(r, k - 1)
  }

  /** `getDepth` counts reply edges from `current`: it is at most `current + k` exactly when no path
      below the comment is longer than `k`. */
  lemma {:induction false} GetDepthBound(t: Tree, current: int, k: int)
    ensures GetDepth(t, current) <= current + k <==> HeightAtMost(t, k)
    decreases t, 1
  {
    if t.replies != [] {
      DeepestBound(t.replies, current + 1, k - 1);
      var r0 := t.replies[0];
      assert r0 in t.replies;
      assert HeightAtMost(r0, k - 1) ==> k - 1 >= 0;
    }
  }

  lemma {:induction false} DeepestBound(f: seq<Tree>, current: int, k: int)
    requires f != []
    ensures DeepestOf(f, current) <= current + k <==> forall r :: r in f ==> HeightAtMost(r, k)
    decreases f, 0
  {
    GetDepthBound(f[0], current, k);
    if |f| > 1 {
      DeepestBound(f[1..], current, k);
      assert forall r :: r in f <==> r == f[0] || r in f[1..] by {
        assert f == [f[0]] + f[1..];
      }
    }
  }

  /** `validateCommentDepth(comments, maxDepth)`, with `maxDepth` 3 when the caller leaves it out. */
  function ValidateCommentDepth(forest: seq<Tree>, maxDepth: Option<int>): bool {
    var limit := maxDepth.GetOr(3);
    forall t :: t in forest ==> GetDepth(t, 0) <= limit
  }

  /** The depth check passes exactly when no thread has more than `maxDepth` (default 3) levels of
      replies below its root. */
  lemma ValidateCommentDepthMeaning(forest: seq<Tree>, maxDepth: Option<int>)
    ensures ValidateCommentDepth(forest, maxDepth)
        <==> forall t :: t in forest ==> HeightAtMost(t, maxDepth.GetOr(3))
  {
    forall t | t in forest {
      GetDepthBound(t, 0, maxDepth.GetOr(3));
    }
  }

  // ---- sanitizeComment ----

  /** Whitespace occurs only as single plain spaces. */
  predicate Collapsed(r: string) {
    && (forall i :: 0 <= i < |r| && IsJsSpace(r[i]) ==> r[i] == ' ')
    && (forall i :: 0 <= i < |r| - 1 ==> !(IsJsSpace(r[i]) && IsJsSpace(r[i + 1])))
  }

  lemma CollapsedPrefix(r: string, n: int)
    requires Collapsed(r) && 0 <= n <= |r|
    ensures Collapsed(r[..n])
  {
    assert forall i :: 0 <= i < n ==> r[..n][i] == r[i];
  }

  lemma ConsCollapsed(c: char, rest: string)
    requires Collapsed(rest)
    requires IsJsSpace(c) ==> c == ' ' && (rest == [] || !IsJsSpace(rest[0]))
    ensures Collapsed([c] + rest)
  {
    var r := [c] + rest;
    assert forall i :: 0 < i < |r| ==> r[i] == rest[i - 1];
  }

  /** `replace(/\s+/g, ' ')`: every maximal run of whitespace becomes one space. */
  function CollapseSpaces(s: string): (r: string)
    ensures |r| <= |s|
    ensures (r == []) == (s == [])
    ensures s != [] && !IsJsSpace(s[0]) ==> r[0] == s[0]
    ensures Collapsed(r)
    decreases |s|
  {
    if s == [] then []
    else if IsJsSpace(s[0]) then
      var rest := CollapseSpaces(TrimStart(s[1..]));
      ConsCollapsed(' ', rest);
      [' '] + rest
    else
      var rest := CollapseSpaces(s[1..]);
      ConsCollapsed(s[0], rest);
      [s[0]] + rest
  }

  /** Text that does not end in whitespace still does not after collapsing. */
  lemma {:induction false} CollapseLast(s: string)
    ensures s != [] && !IsJsSpace(s[|s| - 1]) ==>
      CollapseSpaces(s) != [] && !IsJsSpace(CollapseSpaces(s)[|CollapseSpaces(s)| - 1])
    decreases |s|
  {
    if s == [] || IsJsSpace(s[|s| - 1]) {
    } else if IsJsSpace(s[0]) {
      var t := TrimStart(s[1..]);
      assert t != [] && t[|t| - 1] == s[|s| - 1];
      CollapseLast(t);
    } else if |s| > 1 {
      CollapseLast(s[1..]);
    }
  }

  /** The characters other than whitespace, in order. */
  function Visible(s: string): (r: string)
    ensures forall i :: 0 <= i < |r| ==> !IsJsSpace(r[i])
  {
    if s == [] then [] else (if IsJsSpace(s[0]) then [] else [s[0]]) + Visible(s[1..])
  }

  lemma {:induction false} VisibleAppend(a: string, b: string)
    ensures Visible(a + b) == Visible(a) + Visible(b)
  {
    if a != [] {
      assert (a + b)[0] == a[0] && (a + b)[1..] == a[1..] + b;
      VisibleAppend(a[1..], b);
    } else {
      assert a + b == b;
    }
  }

  lemma {:induction false} VisibleTrimStart(s: string)
    ensures Visible(TrimStart(s)) == Visible(s)
  {
    if s != [] && IsJsSpace(s[0]) {
      VisibleTrimStart(s[1..]);
    }
  }

  lemma {:induction false} VisibleTrimEnd(s: string)
    ensures Visible(TrimEnd(s)) == Visible(s)
  {
    if s != [] && IsJsSpace(s[|s| - 1]) {
      var init := s[..|s| - 1];
      VisibleTrimEnd(init);
      assert s == init + [s[|s| - 1]];
      VisibleAppend(init, [s[|s| - 1]]);
    }
  }

  /** Collapsing whitespace keeps every other character, in order. */
  lemma {:induction false} CollapseKeepsText(s: string)
    ensures Visible(CollapseSpaces(s)) == Visible(s)
    decreases |s|
  {
    if s != [] {
      if IsJsSpace(s[0]) {
        CollapseKeepsText(TrimStart(s[1..]));
        VisibleTrimStart(s[1..]);
        assert CollapseSpaces(s) == [' '] + CollapseSpaces(TrimStart(s[1..]));
        VisibleAppend([' '], CollapseSpaces(TrimStart(s[1..])));
      } else {
        CollapseKeepsText(s[1..]);
        VisibleAppend([s[0]], CollapseSpaces(s[1..]));
      }
    }
  }

  /** `sanitizeComment`: trim, collapse whitespace runs to one space, keep at most 1000 characters. */
  function SanitizeComment(content: string): (r: string)
    ensures |r| <= 1000
    ensures |r| == if |CollapseSpaces(Trim(content))| <= 1000 then |CollapseSpaces(Trim(content))| else 1000
    ensures r <= CollapseSpaces(Trim(content))
    ensures r == [] || !IsJsSpace(r[0])
    ensures Collapsed(r)
    ensures |CollapseSpaces(Trim(content))| <= 1000 ==> r == [] || !IsJsSpace(r[|r| - 1])
  {
    var t := Trim(content);
    var c := CollapseSpaces(t);
    assert c != [] ==> !IsJsSpace(c[0]);
    CollapseLast(t);
    if |c| <= 1000 then c
    else
      CollapsedPrefix(c, 1000);
      c[..1000]
  }

  /** Below the length limit, sanitising loses no character other than whitespace. */
  lemma SanitizeKeepsText(content: string)
    requires |CollapseSpaces(Trim(content))| <= 1000
    ensures Visible(SanitizeComment(content)) == Visible(content)
  {
    CollapseKeepsText(Trim(content));
    VisibleTrimStart(content);
    VisibleTrimEnd(TrimStart(content));
  }

  // ---- commentSchema and commentUpdateSchema ----

  datatype CommentInput = CommentInput(content: string, parentCommentId: Option<string>)

  function ContentIssues(content: string): seq<Issue> {
    (if |content| < 1 then [Issue("content", "Comment content is required")] else [])
    + (if |content| > 1000 then [Issue("content", "Comment must be less than 1000 characters")] else [])
  }

  /** `commentSchema.safeParse`: content of 1 to 1000 characters (counted before trimming), then
      trimmed; an optional parent id that must be a UUID (`isUuid`). */
  function ParseComment(input: CommentInput, isUuid: string -> bool): Outcome<CommentInput> {
    var issues := ContentIssues(input.content)
      + (if input.parentCommentId.Some? && !isUuid(input.parentCommentId.value)
         then [Issue("parent_comment_id", "Invalid uuid")] else []);
    if issues == [] then Valid(CommentInput(Trim(input.content), input.parentCommentId))
    else Invalid(issues)
  }

  /** `commentUpdateSchema.safeParse`: the content rule alone. */
  function ParseCommentUpdate(content: string): Outcome<string> {
    var issues := ContentIssues(content);
    if issues == [] then Valid(Trim(content)) else Invalid(issues)
  }

  /** A comment is accepted exactly when its raw content has 1 to 1000 characters and any parent id is
      a UUID; the stored content is then the trimmed text. */
  lemma ParseCommentAccepts(input: CommentInput, isUuid: string -> bool)
    ensures ParseComment(input, isUuid).Valid?
        <==> 1 <= |input.content| <= 1000
             && (input.parentCommentId.Some? ==> isUuid(input.parentCommentId.value))
    ensures ParseComment(input, isUuid).Valid? ==>
      ParseComment(input, isUuid).data == CommentInput(Trim(input.content), input.parentCommentId)
  {
  }

  /** Content made only of whitespace passes the length check and is stored as the empty string. */
  lemma WhitespaceOnlyComment(content: string)
    requires 1 <= |content| <= 1000
    requires forall i :: 0 <= i < |content| ==> IsJsSpace(content[i])
    ensures ParseCommentUpdate(content) == Valid("")
  {
    TrimAllSpace(content);
  }

  /** The update rule and the creation rule agree on the content. */
  lemma UpdateMatchesCreate(content: string, isUuid: string -> bool)
    ensures ParseCommentUpdate(content).Valid? == ParseComment(CommentInput(content, None), isUuid).Valid?
    ensures ParseCommentUpdate(content).Valid? ==>
      ParseCommentUpdate(content).data == ParseComment(CommentInput(content, None), isUuid).data.content
  {
  }
}
