/**
 * `scrape_subreddit`: the pagination loop that requests pages of posts,
 * filters them by keyword, builds each admitted post's filtered comment
 * forest and collects the posts until `limit` is reached or the upstream
 * stops delivering.
 *
 * The upstream is a finite sequence of page results, one per request in
 * request order: `None` when the request (or reading the listing) raised,
 * otherwise the posts of the page. Requests past the end receive an empty
 * page.
 */
module Scraper {

  import opened Wrappers
  import opened Text
  import opened Keywords
  import opened CommentTree

  /** The largest page the loop asks for (fetcher.py:103). */
  const PageSize := 100

  /** The four listings of a subreddit. */
  datatype Listing = Hot | New | Top | Rising

  /** The listing requested for `post_type`; anything unknown falls back to `hot`. */
  function ListingFor(postType: string): (l: Listing)
    ensures l == New <==> postType == "new"
    ensures l == Top <==> postType == "top"
    ensures l == Rising <==> postType == "rising"
    ensures l == Hot <==> postType != "new" && postType != "top" && postType != "rising"
  {
    if postType == "hot" then Hot
    else if postType == "new" then New
    else if postType == "top" then Top
    else if postType == "rising" then Rising
    else Hot
  }

  /** One page request: the listing, `params['limit']` and `params['after']` if set. */
  datatype Request = Request(listing: Listing, count: int, after: Option<string>)

  /**
   * A submission as the upstream delivers it. `comments` is the top-level
   * comment forest after `replace_more`; `commentFailure` is `Some(k)` when
   * an exception escapes before top-level comment `k` is processed
   * (`Some(0)`: `replace_more` itself raised).
   */
  datatype RawPost = RawPost(
    id: string, fullname: string, title: string, author: Option<string>, selftext: string,
    score: int, url: string, created: real, numComments: int, stickied: bool,
    comments: seq<Raw>, commentFailure: Option<nat>)

  /** The post record that the loop collects (fetcher.py:161-171). */
  datatype Post = Post(
    id: string, title: string, author: string, selftext: string, score: int, url: string,
    created: real, numComments: int, comments: seq<Comment>)

  /** The text both post filters test: title and body, lower-cased. */
  function PostText(p: RawPost): string
  {
    Lower(p.title + " " + p.selftext)
  }

  /** What the loop does with one post of a page. */
  datatype Verdict = Pinned | SkipUnwanted | SkipNotWanted | Admit

  /**
   * The per-post decision: stickied posts are passed over first, then the
   * unwanted test, then the wanted test (fetcher.py:144-158).
   */
  function Classify(p: RawPost, wanted: seq<string>, unwanted: seq<string>): (v: Verdict)
    ensures v == Pinned <==> p.stickied
    ensures v == SkipUnwanted <==> !p.stickied && ContainsKeywords(PostText(p), unwanted)
    ensures v == Admit <==>
              !p.stickied && !ContainsKeywords(PostText(p), unwanted)
              && (wanted == [] || ContainsKeywords(PostText(p), wanted))
  {
    if p.stickied then Pinned
    else if |unwanted| > 0 && ContainsKeywords(PostText(p), unwanted) then SkipUnwanted
    else if |wanted| > 0 && !ContainsKeywords(PostText(p), wanted) then SkipNotWanted
    else Admit
  }

  predicate Admitted(p: RawPost, wanted: seq<string>, unwanted: seq<string>)
  {
    Classify(p, wanted, unwanted) == Admit
  }

  predicate FilteredOut(p: RawPost, wanted: seq<string>, unwanted: seq<string>)
  {
    Classify(p, wanted, unwanted) in {SkipUnwanted, SkipNotWanted}
  }

  /**
   * The filter composition: a stickied post is never counted as skipped, an
   * unwanted match decides before the wanted test, an empty wanted list
   * imposes nothing, and a post is admitted exactly when it is not stickied,
   * matches no unwanted keyword and, if there are wanted keywords, matches one.
   */
  lemma ClassifyFacts(p: RawPost, wanted: seq<string>, unwanted: seq<string>)
    ensures p.stickied ==> Classify(p, wanted, unwanted) == Pinned
    ensures !p.stickied && ContainsKeywords(PostText(p), unwanted) ==> Classify(p, wanted, unwanted) == SkipUnwanted
    ensures wanted == [] ==> Classify(p, wanted, unwanted) != SkipNotWanted
    ensures Admitted(p, wanted, unwanted) <==>
              !p.stickied && !ContainsKeywords(p.title + " " + p.selftext, unwanted)
              && (wanted == [] || ContainsKeywords(p.title + " " + p.selftext, wanted))
  {
    ContainsKeywordsIgnoresCase(p.title + " " + p.selftext, unwanted);
    ContainsKeywordsIgnoresCase(p.title + " " + p.selftext, wanted);
  }

  /** The posts of `ps` that are admitted, in their order. */
  function Selected(ps: seq<RawPost>, wanted: seq<string>, unwanted: seq<string>): (r: seq<RawPost>)
    ensures |r| <= |ps|
    decreases |ps|
  {
    if ps == [] then []
    else
      var n := |ps| - 1;
      Selected(ps[..n], wanted, unwanted) + (if Admitted(ps[n], wanted, unwanted) then [ps[n]] else [])
  }

  /** How many posts of `ps` the keyword filters skipped. */
  function SkipCount(ps: seq<RawPost>, wanted: seq<string>, unwanted: seq<string>): nat
    decreases |ps|
  {
    if ps == [] then 0
    else
      var n := |ps| - 1;
      SkipCount(ps[..n], wanted, unwanted) + (if FilteredOut(ps[n], wanted, unwanted) then 1 else 0)
  }

  /** How many posts of `ps` are stickied. */
  function PinnedCount(ps: seq<RawPost>): nat
    decreases |ps|
  {
    if ps == [] then 0
    else
      var n := |ps| - 1;
      PinnedCount(ps[..n]) + (if ps[n].stickied then 1 else 0)
  }

  /**
   * Every post looked at is exactly one of: stickied, skipped by a filter,
   * or admitted.
   */
  lemma {:induction false} VerdictsPartition(ps: seq<RawPost>, wanted: seq<string>, unwanted: seq<string>)
    ensures |ps| == PinnedCount(ps) + SkipCount(ps, wanted, unwanted) + |Selected(ps, wanted, unwanted)|
    decreases |ps|
  {
    if ps != [] {
      VerdictsPartition(ps[..|ps| - 1], wanted, unwanted);
    }
  }

  /** Filtering keeps order: the admitted posts of a concatenation. */
  lemma {:induction false} SelectedAppend(a: seq<RawPost>, b: seq<RawPost>, wanted: seq<string>, unwanted: seq<string>)
    ensures Selected(a + b, wanted, unwanted) == Selected(a, wanted, unwanted) + Selected(b, wanted, unwanted)
    decreases |b|
  {
    if b == [] {
      assert a + b == a;
    } else {
      var n := |b| - 1;
      assert (a + b)[..|a + b| - 1] == a + b[..n];
      assert (a + b)[|a + b| - 1] == b[n];
      SelectedAppend(a, b[..n], wanted, unwanted);
    }
  }

  /** Every admitted post is a post of the input that passes both filters. */
  lemma {:induction false} SelectedSound(ps: seq<RawPost>, wanted: seq<string>, unwanted: seq<string>)
    ensures forall p :: p in Selected(ps, wanted, unwanted) ==> p in ps && Admitted(p, wanted, unwanted)
    decreases |ps|
  {
    if ps != [] {
      var n := |ps| - 1;
      SelectedSound(ps[..n], wanted, unwanted);
      forall p | p in ps[..n] ensures p in ps {
        var k :| 0 <= k < n && ps[..n][k] == p;
        assert ps[k] == p;
      }
    }
  }

  /** Where the comment step stops: at the failure point, or after every top-level comment. */
  function CommentCut(p: RawPost): (k: nat)
    ensures k <= |p.comments|
  {
    match p.commentFailure
    case None => |p.comments|
    case Some(f) => Min(f, |p.comments|)
  }

  /**
   * The record appended for an admitted post: its fields, and the kept
   * comment trees of the top-level comments processed before any failure.
   */
  function BuildPost(p: RawPost, commentUnwanted: seq<string>, related: RelatedTest): (r: Post)
    ensures r.id == p.id && r.title == p.title && r.selftext == p.selftext && r.url == p.url
    ensures r.score == p.score && r.created == p.created && r.numComments == p.numComments
    ensures r.author == AuthorName(p.author)
    ensures |r.comments| <= CommentCut(p) <= |p.comments|
    ensures forall x :: x in FlattenAll(r.comments) ==> BodyAdmitted(x.body, commentUnwanted, related)
  {
    ProcessedForestClean(p.comments[..CommentCut(p)], commentUnwanted, related);
    Post(p.id, p.title, AuthorName(p.author), p.selftext, p.score, p.url, p.created, p.numComments,
         ProcessReplies(p.comments[..CommentCut(p)], commentUnwanted, related))
  }

  function BuildAll(ps: seq<RawPost>, commentUnwanted: seq<string>, related: RelatedTest): (r: seq<Post>)
    ensures |r| == |ps|
    ensures forall i :: 0 <= i < |ps| ==> r[i] == BuildPost(ps[i], commentUnwanted, related)
  {
    seq(|ps|, i requires 0 <= i < |ps| => BuildPost(ps[i], commentUnwanted, related))
  }

  /**
   * The comment step of one admitted post (fetcher.py:173-194): the kept
   * trees of the top-level comments processed before any failure, the
   * number of comment nodes they hold (`total_comments`) and the number of
   * top-level comments dropped (`skipped_comments`).
   */
  method CollectComments(p: RawPost, commentUnwanted: seq<string>, related: RelatedTest)
    returns (comments: seq<Comment>, total: nat, skippedComments: nat)
    ensures comments == ProcessReplies(p.comments[..CommentCut(p)], commentUnwanted, related)
    ensures total == |FlattenAll(comments)|
    ensures skippedComments + |comments| == CommentCut(p)
  {
    var cut := CommentCut(p);
    comments, total, skippedComments := [], 0, 0;
    var i := 0;
    while i < cut
      invariant 0 <= i <= cut
      invariant comments == ProcessReplies(p.comments[..i], commentUnwanted, related)
      invariant total == |FlattenAll(comments)|
      invariant skippedComments + |comments| == i
    {
      var c := p.comments[i];
      var processed := ProcessComment(c, commentUnwanted, related);
      assert p.comments[..i + 1] == p.comments[..i] + [c];
      ProcessRepliesAppend(p.comments[..i], [c], commentUnwanted, related);
      if processed.Some? {
        var below := CountReplies(processed.value);
        FlattenAllAppend(comments, [processed.value]);
        assert FlattenAll([processed.value]) == Flatten(processed.value);
        comments := comments + [processed.value];
        total := total + 1 + below;
      } else {
        skippedComments := skippedComments + 1;
      }
      i := i + 1;
    }
  }

  /**
   * The inner `for post in post_batch` loop: it looks at the posts of one
   * page in order and stops right after the post that brings the collection
   * to `limit`. `taken` is how many posts of the page it looked at.
   */
  method ProcessBatch(
    batch: seq<RawPost>, limit: int, wanted: seq<string>, unwanted: seq<string>,
    commentUnwanted: seq<string>, related: RelatedTest,
    data0: seq<Post>, processed0: nat, skipped0: nat)
    returns (data: seq<Post>, processed: nat, skipped: nat, taken: nat)
    requires |data0| < limit
    ensures taken <= |batch|
    ensures data == data0 + BuildAll(Selected(batch[..taken], wanted, unwanted), commentUnwanted, related)
    ensures processed == processed0 + taken
    ensures skipped == skipped0 + SkipCount(batch[..taken], wanted, unwanted)
    ensures |data| <= limit
    ensures taken < |batch| ==> |data| == limit
    ensures |data| == limit ==> 0 < taken && Admitted(batch[taken - 1], wanted, unwanted)
  {
    data, processed, skipped := data0, processed0, skipped0;
    taken := 0;
    while taken < |batch|
      invariant 0 <= taken <= |batch|
      invariant data == data0 + BuildAll(Selected(batch[..taken], wanted, unwanted), commentUnwanted, related)
      invariant processed == processed0 + taken
      invariant skipped == skipped0 + SkipCount(batch[..taken], wanted, unwanted)
      invariant |data| < limit
    {
      var post := batch[taken];
      processed := processed + 1;
      var verdict := Classify(post, wanted, unwanted);
      if verdict == SkipUnwanted || verdict == SkipNotWanted {
        StepFiltered(batch, taken, wanted, unwanted);
        skipped := skipped + 1;
      } else if verdict == Admit {
        StepAdmitted(batch, taken, wanted, unwanted);
        var comments, total, skippedComments := CollectComments(post, commentUnwanted, related);
        var built := Post(post.id, post.title, AuthorName(post.author), post.selftext, post.score,
                          post.url, post.created, post.numComments, comments);
        BuildAllSnoc(Selected(batch[..taken], wanted, unwanted), post, commentUnwanted, related);
        data := data + [built];
      } else {
        StepPinned(batch, taken, wanted, unwanted);
      }
      taken := taken + 1;
      if |data| >= limit {
        break;
      }
    }
  }

  /** Looking at an admitted post adds it to the selection and to no skip count. */
  lemma StepAdmitted(ps: seq<RawPost>, i: nat, wanted: seq<string>, unwanted: seq<string>)
    requires i < |ps| && Admitted(ps[i], wanted, unwanted)
    ensures Selected(ps[..i + 1], wanted, unwanted) == Selected(ps[..i], wanted, unwanted) + [ps[i]]
    ensures SkipCount(ps[..i + 1], wanted, unwanted) == SkipCount(ps[..i], wanted, unwanted)
  {
    assert ps[..i + 1][..i] == ps[..i];
    assert ps[..i + 1][i] == ps[i];
  }

  /** Looking at a filtered-out post adds one skip and nothing to the selection. */
  lemma StepFiltered(ps: seq<RawPost>, i: nat, wanted: seq<string>, unwanted: seq<string>)
    requires i < |ps| && FilteredOut(ps[i], wanted, unwanted)
    ensures Selected(ps[..i + 1], wanted, unwanted) == Selected(ps[..i], wanted, unwanted)
    ensures SkipCount(ps[..i + 1], wanted, unwanted) == SkipCount(ps[..i], wanted, unwanted) + 1
  {
    assert ps[..i + 1][..i] == ps[..i];
    assert ps[..i + 1][i] == ps[i];
  }

  /** Looking at a stickied post changes neither the selection nor the skip count. */
  lemma StepPinned(ps: seq<RawPost>, i: nat, wanted: seq<string>, unwanted: seq<string>)
    requires i < |ps| && Classify(ps[i], wanted, unwanted) == Pinned
    ensures Selected(ps[..i + 1], wanted, unwanted) == Selected(ps[..i], wanted, unwanted)
    ensures SkipCount(ps[..i + 1], wanted, unwanted) == SkipCount(ps[..i], wanted, unwanted)
  {
    assert ps[..i + 1][..i] == ps[..i];
    assert ps[..i + 1][i] == ps[i];
  }

  /** Building the records of one more admitted post appends its record. */
  lemma BuildAllSnoc(a: seq<RawPost>, p: RawPost, commentUnwanted: seq<string>, related: RelatedTest)
    ensures BuildAll(a + [p], commentUnwanted, related) == BuildAll(a, commentUnwanted, related) + [BuildPost(p, commentUnwanted, related)]
  {
  }

  /** What a page result contributes to the posts looked at. */
  function PagePosts(page: Option<seq<RawPost>>): seq<RawPost>
  {
    match page
    case None => []
    case Some(ps) => ps
  }

  /** The result of request `i`; requests past the end of the upstream get an empty page. */
  function PageAt(pages: seq<Option<seq<RawPost>>>, i: nat): Option<seq<RawPost>>
  {
    if i < |pages| then pages[i] else Some([])
  }

  /** A page result that ends the loop: the fetch raised, or the page is empty. */
  predicate StopsLoop(page: Option<seq<RawPost>>)
  {
    page.None? || page.value == []
  }

  /** All posts of the first `n` page results, in order. */
  function Delivered(pages: seq<Option<seq<RawPost>>>, n: nat): seq<RawPost>
  {
    if n == 0 then [] else Delivered(pages, n - 1) + PagePosts(PageAt(pages, n - 1))
  }

  /** `if after: params['after'] = after`: an unset or empty cursor is not sent. */
  function AfterParam(after: Option<string>): Option<string>
  {
    if after.Some? && after.value != "" then after else None
  }

  /**
   * The cursor after `n` requests: the full name of the last post of the
   * `n`-th page, stickied or not (fetcher.py:139).
   */
  function Cursor(pages: seq<Option<seq<RawPost>>>, n: nat): Option<string>
  {
    if n == 0 then None
    else
      var page := PageAt(pages, n - 1);
      if StopsLoop(page) then None else Some(page.value[|page.value| - 1].fullname)
  }

  /**
   * The request the loop sends as its `i`-th: as many posts as are still
   * missing, at most a page, after the last post of the previous page.
   */
  function RequestAt(
    pages: seq<Option<seq<RawPost>>>, i: nat, postType: string, limit: int,
    wanted: seq<string>, unwanted: seq<string>): Request
  {
    var collected := |Selected(Delivered(pages, i), wanted, unwanted)|;
    Request(ListingFor(postType), Min(PageSize, limit - collected), AfterParam(Cursor(pages, i)))
  }

  /** Every request sent so far is the one `RequestAt` describes, and asks for 1 to 100 posts. */
  ghost predicate RequestsAsSpecified(
    requests: seq<Request>, pages: seq<Option<seq<RawPost>>>, postType: string, limit: int,
    wanted: seq<string>, unwanted: seq<string>)
  {
    forall i :: 0 <= i < |requests| ==>
      requests[i] == RequestAt(pages, i, postType, limit, wanted, unwanted)
      && 1 <= requests[i].count <= PageSize
  }

  /** The collected posts and the two reported totals agree with the posts looked at. */
  ghost predicate Tallies(
    seen: seq<RawPost>, data: seq<Post>, processed: nat, skipped: nat,
    wanted: seq<string>, unwanted: seq<string>, commentUnwanted: seq<string>, related: RelatedTest)
  {
    && data == BuildAll(Selected(seen, wanted, unwanted), commentUnwanted, related)
    && processed == |seen|
    && skipped == SkipCount(seen, wanted, unwanted)
  }

  /** Looking at a further chunk of posts extends the tallies by that chunk. */
  lemma TalliesExtend(
    seen: seq<RawPost>, chunk: seq<RawPost>, data0: seq<Post>, data1: seq<Post>,
    processed0: nat, processed1: nat, skipped0: nat, skipped1: nat,
    wanted: seq<string>, unwanted: seq<string>, commentUnwanted: seq<string>, related: RelatedTest)
    requires Tallies(seen, data0, processed0, skipped0, wanted, unwanted, commentUnwanted, related)
    requires data1 == data0 + BuildAll(Selected(chunk, wanted, unwanted), commentUnwanted, related)
    requires processed1 == processed0 + |chunk|
    requires skipped1 == skipped0 + SkipCount(chunk, wanted, unwanted)
    ensures Tallies(seen + chunk, data1, processed1, skipped1, wanted, unwanted, commentUnwanted, related)
  {
    SelectedAppend(seen, chunk, wanted, unwanted);
    SkipCountAppend(seen, chunk, wanted, unwanted);
    BuildAllAppend(Selected(seen, wanted, unwanted), Selected(chunk, wanted, unwanted), commentUnwanted, related);
  }

  /** The fixed inputs of one run of the loop. */
  datatype Run = Run(
    postType: string, limit: int, wanted: seq<string>, unwanted: seq<string>,
    commentUnwanted: seq<string>, related: RelatedTest, pages: seq<Option<seq<RawPost>>>)

  /**
   * What the loop knows about the requests it has sent: none when `limit`
   * is not positive, each as `RequestAt` describes, none answered by a page
   * that ends the loop, and `after` the cursor the last page left.
   */
  ghost predicate RequestFacts(c: Run, requests: seq<Request>, after: Option<string>)
  {
    && |requests| <= |c.pages|
    && (c.limit <= 0 ==> requests == [])
    && (forall i :: 0 <= i < |requests| ==> !StopsLoop(PageAt(c.pages, i)))
    && after == Cursor(c.pages, |requests|)
    && RequestsAsSpecified(requests, c.pages, c.postType, c.limit, c.wanted, c.unwanted)
  }

  /**
   * What the loop knows about the posts it has looked at after `n`
   * requests: a prefix of those delivered, all of them unless the limit was
   * reached, and the tallies agree with them.
   */
  ghost predicate SeenFacts(c: Run, n: nat, seen: seq<RawPost>, data: seq<Post>, processed: nat, skipped: nat)
  {
    && seen <= Delivered(c.pages, n)
    && (seen != Delivered(c.pages, n) ==> |data| >= c.limit)
    && Tallies(seen, data, processed, skipped, c.wanted, c.unwanted, c.commentUnwanted, c.related)
    && (n > 0 ==> |data| <= c.limit)
    && StopsAtLimit(c, seen, data)
  }

  /**
   * Once `limit` posts are collected, the last post looked at is the
   * admitted one that filled the collection: the loop looks at no post
   * after it (fetcher.py:199-200).
   */
  ghost predicate StopsAtLimit(c: Run, seen: seq<RawPost>, data: seq<Post>)
  {
    c.limit > 0 && |data| == c.limit ==> seen != [] && Admitted(seen[|seen| - 1], c.wanted, c.unwanted)
  }

  /** The invariant of the `while` loop of `scrape_subreddit`, at its head. */
  ghost predicate LoopInvariant(
    c: Run, requests: seq<Request>, seen: seq<RawPost>, data: seq<Post>,
    processed: nat, skipped: nat, after: Option<string>)
  {
    RequestFacts(c, requests, after) && SeenFacts(c, |requests|, seen, data, processed, skipped)
  }

  /** What `scrape_subreddit` promises about its results (the postcondition of the method). */
  ghost predicate Finished(
    c: Run, requests: seq<Request>, seen: seq<RawPost>, data: seq<Post>, processed: nat, skipped: nat)
  {
    && (c.limit <= 0 ==> data == [] && requests == [] && processed == 0 && skipped == 0)
    && |data| <= (if c.limit < 0 then 0 else c.limit)
    && RequestsAsSpecified(requests, c.pages, c.postType, c.limit, c.wanted, c.unwanted)
    && (forall i :: 0 <= i < |requests| - 1 ==> !StopsLoop(PageAt(c.pages, i)))
    && seen <= Delivered(c.pages, |requests|)
    && Tallies(seen, data, processed, skipped, c.wanted, c.unwanted, c.commentUnwanted, c.related)
    && (|data| < c.limit ==>
          |requests| > 0 && StopsLoop(PageAt(c.pages, |requests| - 1)) && seen == Delivered(c.pages, |requests|))
    && (seen != Delivered(c.pages, |requests|) ==> |data| == c.limit)
    && StopsAtLimit(c, seen, data)
  }

  lemma LoopStart(c: Run)
    ensures LoopInvariant(c, [], [], [], 0, 0, None)
  {
  }

  /** The request sent at the head of the loop is the one `RequestAt` describes. */
  lemma NextRequest(
    c: Run, requests: seq<Request>, seen: seq<RawPost>, data: seq<Post>,
    processed: nat, skipped: nat, after: Option<string>)
    requires LoopInvariant(c, requests, seen, data, processed, skipped, after) && |data| < c.limit
    ensures seen == Delivered(c.pages, |requests|)
    ensures RequestAt(c.pages, |requests|, c.postType, c.limit, c.wanted, c.unwanted)
         == Request(ListingFor(c.postType), Min(PageSize, c.limit - |data|), AfterParam(after))
    ensures RequestsAsSpecified(requests + [RequestAt(c.pages, |requests|, c.postType, c.limit, c.wanted, c.unwanted)],
                                c.pages, c.postType, c.limit, c.wanted, c.unwanted)
  {
    assert seen == Delivered(c.pages, |requests|);
    assert |data| == |Selected(seen, c.wanted, c.unwanted)|;
    RequestSpecified(c, requests, after, |data|);
  }

  /** With `collected` posts so far, the next request asks for the missing ones, at most a page, after the cursor. */
  lemma RequestSpecified(c: Run, requests: seq<Request>, after: Option<string>, collected: nat)
    requires RequestFacts(c, requests, after)
    requires collected == |Selected(Delivered(c.pages, |requests|), c.wanted, c.unwanted)| && collected < c.limit
    ensures RequestAt(c.pages, |requests|, c.postType, c.limit, c.wanted, c.unwanted)
         == Request(ListingFor(c.postType), Min(PageSize, c.limit - collected), AfterParam(after))
    ensures RequestsAsSpecified(requests + [RequestAt(c.pages, |requests|, c.postType, c.limit, c.wanted, c.unwanted)],
                                c.pages, c.postType, c.limit, c.wanted, c.unwanted)
  {
    var next := RequestAt(c.pages, |requests|, c.postType, c.limit, c.wanted, c.unwanted);
    var rs := requests + [next];
    forall i | 0 <= i < |rs|
      ensures rs[i] == RequestAt(c.pages, i, c.postType, c.limit, c.wanted, c.unwanted) && 1 <= rs[i].count <= PageSize
    {
      if i < |requests| {
        assert rs[i] == requests[i];
      }
    }
  }

  /** One pass of the loop over a non-empty page keeps the invariant. */
  lemma LoopStep(
    c: Run, requests: seq<Request>, seen: seq<RawPost>, data: seq<Post>,
    processed: nat, skipped: nat, after: Option<string>,
    batch: seq<RawPost>, taken: nat, data': seq<Post>, processed': nat, skipped': nat)
    requires LoopInvariant(c, requests, seen, data, processed, skipped, after) && |data| < c.limit
    requires PageAt(c.pages, |requests|) == Some(batch) && batch != []
    requires taken <= |batch|
    requires data' == data + BuildAll(Selected(batch[..taken], c.wanted, c.unwanted), c.commentUnwanted, c.related)
    requires processed' == processed + taken
    requires skipped' == skipped + SkipCount(batch[..taken], c.wanted, c.unwanted)
    requires |data'| <= c.limit
    requires taken < |batch| ==> |data'| == c.limit
    requires |data'| == c.limit ==> 0 < taken && Admitted(batch[taken - 1], c.wanted, c.unwanted)
    ensures LoopInvariant(c, requests + [RequestAt(c.pages, |requests|, c.postType, c.limit, c.wanted, c.unwanted)],
                          seen + batch[..taken], data', processed', skipped', Some(batch[|batch| - 1].fullname))
  {
    var next := RequestAt(c.pages, |requests|, c.postType, c.limit, c.wanted, c.unwanted);
    NextRequest(c, requests, seen, data, processed, skipped, after);
    RequestStep(c, requests, after, next, batch);
    SeenStep(c, |requests|, seen, data, processed, skipped, batch, taken, data', processed', skipped');
  }

  /** A request answered by a non-empty page extends the request facts. */
  lemma RequestStep(c: Run, requests: seq<Request>, after: Option<string>, next: Request, batch: seq<RawPost>)
    requires RequestFacts(c, requests, after)
    requires RequestsAsSpecified(requests + [next], c.pages, c.postType, c.limit, c.wanted, c.unwanted)
    requires PageAt(c.pages, |requests|) == Some(batch) && batch != []
    ensures RequestFacts(c, requests + [next], Some(batch[|batch| - 1].fullname))
  {
    var rs := requests + [next];
    forall i | 0 <= i < |rs| ensures !StopsLoop(PageAt(c.pages, i)) {
      if i < |requests| {
        assert !StopsLoop(PageAt(c.pages, i));
      }
    }
    assert 1 <= rs[0].count;
  }

  /** Looking at the first `taken` posts of the next page extends the facts about the posts seen. */
  lemma SeenStep(
    c: Run, n: nat, seen: seq<RawPost>, data: seq<Post>, processed: nat, skipped: nat,
    batch: seq<RawPost>, taken: nat, data': seq<Post>, processed': nat, skipped': nat)
    requires seen == Delivered(c.pages, n)
    requires Tallies(seen, data, processed, skipped, c.wanted, c.unwanted, c.commentUnwanted, c.related)
    requires PageAt(c.pages, n) == Some(batch) && taken <= |batch|
    requires data' == data + BuildAll(Selected(batch[..taken], c.wanted, c.unwanted), c.commentUnwanted, c.related)
    requires processed' == processed + taken
    requires skipped' == skipped + SkipCount(batch[..taken], c.wanted, c.unwanted)
    requires |data'| <= c.limit
    requires taken < |batch| ==> |data'| == c.limit
    requires |data'| == c.limit ==> 0 < taken && Admitted(batch[taken - 1], c.wanted, c.unwanted)
    ensures SeenFacts(c, n + 1, seen + batch[..taken], data', processed', skipped')
  {
    TalliesExtend(seen, batch[..taken], data, data', processed, processed', skipped, skipped',
                  c.wanted, c.unwanted, c.commentUnwanted, c.related);
    StepDelivered(c.pages, n, seen, batch, taken);
    if |data'| == c.limit {
      var seen' := seen + batch[..taken];
      assert seen'[|seen'| - 1] == batch[taken - 1];
    }
  }

  /** Looking at the first `taken` posts of the next page keeps `seen` a prefix of what was delivered. */
  lemma StepDelivered(pages: seq<Option<seq<RawPost>>>, n: nat, seen: seq<RawPost>, batch: seq<RawPost>, taken: nat)
    requires seen == Delivered(pages, n) && PageAt(pages, n) == Some(batch) && taken <= |batch|
    ensures seen + batch[..taken] <= Delivered(pages, n + 1)
    ensures taken == |batch| ==> seen + batch[..taken] == Delivered(pages, n + 1)
  {
    assert Delivered(pages, n + 1) == seen + batch;
    assert taken == |batch| ==> batch[..taken] == batch;
  }

  /** The loop ends on a page that raised or came back empty. */
  lemma LoopStopsOnPage(
    c: Run, requests: seq<Request>, seen: seq<RawPost>, data: seq<Post>,
    processed: nat, skipped: nat, after: Option<string>)
    requires LoopInvariant(c, requests, seen, data, processed, skipped, after) && |data| < c.limit
    requires StopsLoop(PageAt(c.pages, |requests|))
    ensures Finished(c, requests + [RequestAt(c.pages, |requests|, c.postType, c.limit, c.wanted, c.unwanted)],
                     seen, data, processed, skipped)
  {
    var i := |requests|;
    NextRequest(c, requests, seen, data, processed, skipped, after);
    assert Delivered(c.pages, i + 1) == seen;
  }

  /** The loop ends because `limit` posts have been collected. */
  lemma LoopReachesLimit(
    c: Run, requests: seq<Request>, seen: seq<RawPost>, data: seq<Post>,
    processed: nat, skipped: nat, after: Option<string>)
    requires LoopInvariant(c, requests, seen, data, processed, skipped, after) && |data| >= c.limit
    ensures Finished(c, requests, seen, data, processed, skipped)
  {
    if c.limit <= 0 {
      assert seen == [];
    }
  }

  /**
   * Only one prefix of the delivered posts holds a given number of admitted
   * posts and ends with an admitted post: so the posts looked at when the
   * loop stops at `limit` are determined.
   */
  lemma StopPointUnique(d: seq<RawPost>, p: seq<RawPost>, q: seq<RawPost>, wanted: seq<string>, unwanted: seq<string>)
    requires p <= d && q <= d && p != [] && q != []
    requires Admitted(p[|p| - 1], wanted, unwanted) && Admitted(q[|q| - 1], wanted, unwanted)
    requires |Selected(p, wanted, unwanted)| == |Selected(q, wanted, unwanted)|
    ensures p == q
  {
    if |p| < |q| {
      LongerPrefixSelectsMore(p, q, wanted, unwanted);
    } else if |q| < |p| {
      LongerPrefixSelectsMore(q, p, wanted, unwanted);
    } else {
      assert p == d[..|p|] && q == d[..|q|];
    }
  }

  /** A longer run of posts that ends with an admitted post selects more. */
  lemma LongerPrefixSelectsMore(p: seq<RawPost>, q: seq<RawPost>, wanted: seq<string>, unwanted: seq<string>)
    requires p < q && Admitted(q[|q| - 1], wanted, unwanted)
    ensures |Selected(p, wanted, unwanted)| < |Selected(q, wanted, unwanted)|
  {
    var n := |q| - 1;
    assert Selected(q, wanted, unwanted) == Selected(q[..n], wanted, unwanted) + [q[n]];
    var r := q[|p|..n];
    assert q[..n] == p + r;
    SelectedAppend(p, r, wanted, unwanted);
  }

  /** `Finished` spelled out, as the method states it. */
  lemma FinishedMeans(c: Run, requests: seq<Request>, seen: seq<RawPost>, data: seq<Post>, processed: nat, skipped: nat)
    requires Finished(c, requests, seen, data, processed, skipped)
    ensures c.limit <= 0 ==> data == [] && requests == [] && processed == 0 && skipped == 0
    ensures |data| <= if c.limit < 0 then 0 else c.limit
    ensures forall i :: 0 <= i < |requests| ==>
              requests[i] == RequestAt(c.pages, i, c.postType, c.limit, c.wanted, c.unwanted)
              && 1 <= requests[i].count <= PageSize
    ensures forall i :: 0 <= i < |requests| - 1 ==> !StopsLoop(PageAt(c.pages, i))
    ensures seen <= Delivered(c.pages, |requests|)
    ensures data == BuildAll(Selected(seen, c.wanted, c.unwanted), c.commentUnwanted, c.related)
    ensures processed == |seen| && skipped == SkipCount(seen, c.wanted, c.unwanted)
    ensures processed == PinnedCount(seen) + skipped + |data|
    ensures |data| < c.limit ==>
              |requests| > 0 && StopsLoop(PageAt(c.pages, |requests| - 1)) && seen == Delivered(c.pages, |requests|)
    ensures seen != Delivered(c.pages, |requests|) ==> |data| == c.limit
    ensures c.limit > 0 && |data| == c.limit ==> seen != [] && Admitted(seen[|seen| - 1], c.wanted, c.unwanted)
  {
    VerdictsPartition(seen, c.wanted, c.unwanted);
  }

  /**
   * `scrape_subreddit`. `probeOk` is whether the subreddit probe succeeded.
   * Besides the collected posts it returns the requests sent, the totals the
   * source reports (`total_processed`, `skipped_posts`), and, as a ghost,
   * the posts the loop looked at.
   *
   * The contract: nothing is requested when the probe fails or `limit` is
   * not positive; every request asks for between 1 and 100 posts, exactly
   * as many as are still missing, after the last post of the previous page;
   * the posts looked at are a prefix of everything delivered, the collected
   * posts are the admitted ones among them in order, and at most `limit`;
   * the totals add up; the loop stops short of `limit` only on a failed
   * or empty page, after looking at every post delivered; and when it
   * reaches `limit`, the last post it looked at is the one that filled the
   * collection, which fixes the posts looked at (`StopPointUnique`) and so
   * the totals.
   */
  method ScrapeSubreddit(
    probeOk: bool, postType: string, limit: int,
    wanted: seq<string>, unwanted: seq<string>, commentUnwanted: seq<string>,
    related: RelatedTest, pages: seq<Option<seq<RawPost>>>)
    returns (data: seq<Post>, requests: seq<Request>, processed: nat, skipped: nat, ghost seen: seq<RawPost>)
    ensures !probeOk || limit <= 0 ==> data == [] && requests == [] && processed == 0 && skipped == 0
    ensures |data| <= if limit < 0 then 0 else limit
    ensures forall i :: 0 <= i < |requests| ==>
              requests[i] == RequestAt(pages, i, postType, limit, wanted, unwanted)
              && 1 <= requests[i].count <= PageSize
    ensures forall i :: 0 <= i < |requests| - 1 ==> !StopsLoop(PageAt(pages, i))
    ensures seen <= Delivered(pages, |requests|)
    ensures data == BuildAll(Selected(seen, wanted, unwanted), commentUnwanted, related)
    ensures processed == |seen| && skipped == SkipCount(seen, wanted, unwanted)
    ensures processed == PinnedCount(seen) + skipped + |data|
    ensures probeOk && |data| < limit ==>
              |requests| > 0 && StopsLoop(PageAt(pages, |requests| - 1)) && seen == Delivered(pages, |requests|)
    ensures seen != Delivered(pages, |requests|) ==> |data| == limit
    ensures limit > 0 && |data| == limit ==> seen != [] && Admitted(seen[|seen| - 1], wanted, unwanted)
  {
    if !probeOk {
      data, requests, processed, skipped, seen := [], [], 0, 0, [];
      return;
    }
    var c := Run(postType, limit, wanted, unwanted, commentUnwanted, related, pages);
    data, requests, processed, skipped, seen := FetchLoop(c);
    FinishedMeans(c, requests, seen, data, processed, skipped);
  }

  /** The fetch loop of `scrape_subreddit` (fetcher.py:102-200), run after a successful probe. */
  method FetchLoop(c: Run)
    returns (data: seq<Post>, requests: seq<Request>, processed: nat, skipped: nat, ghost seen: seq<RawPost>)
    ensures Finished(c, requests, seen, data, processed, skipped)
  {
    data, requests, processed, skipped, seen := [], [], 0, 0, [];
    var after: Option<string> := None;
    LoopStart(c);
    while |data| < c.limit
      invariant LoopInvariant(c, requests, seen, data, processed, skipped, after)
      decreases |c.pages| - |requests|
    {
      NextRequest(c, requests, seen, data, processed, skipped, after);
      var fetchLimit := Min(PageSize, c.limit - |data|);
      var request := Request(ListingFor(c.postType), fetchLimit, AfterParam(after));
      var page := PageAt(c.pages, |requests|);
      ghost var sent := requests;
      requests := requests + [request];
      if page.None? || page.value == [] {
        LoopStopsOnPage(c, sent, seen, data, processed, skipped, after);
        return;
      }
      var batch := page.value;
      var data', processed', skipped', taken := ProcessBatch(batch, c.limit, c.wanted, c.unwanted,
                                                             c.commentUnwanted, c.related, data, processed, skipped);
      LoopStep(c, sent, seen, data, processed, skipped, after, batch, taken, data', processed', skipped');
      after := Some(batch[|batch| - 1].fullname);
      seen := seen + batch[..taken];
      data, processed, skipped := data', processed', skipped';
    }
    LoopReachesLimit(c, requests, seen, data, processed, skipped, after);
  }

  lemma {:induction false} SkipCountAppend(a: seq<RawPost>, b: seq<RawPost>, wanted: seq<string>, unwanted: seq<string>)
    ensures SkipCount(a + b, wanted, unwanted) == SkipCount(a, wanted, unwanted) + SkipCount(b, wanted, unwanted)
    decreases |b|
  {
    if b == [] {
      assert a + b == a;
    } else {
      var n := |b| - 1;
      assert (a + b)[..|a + b| - 1] == a + b[..n];
      assert (a + b)[|a + b| - 1] == b[n];
      SkipCountAppend(a, b[..n], wanted, unwanted);
    }
  }

  lemma BuildAllAppend(a: seq<RawPost>, b: seq<RawPost>, commentUnwanted: seq<string>, related: RelatedTest)
    ensures BuildAll(a + b, commentUnwanted, related) == BuildAll(a, commentUnwanted, related) + BuildAll(b, commentUnwanted, related)
  {
  }
}
