/**
 * The JSON documents the fetcher writes: the records of posts and comments
 * as Python dicts, and the three payload shapes that `main` hands to
 * `save_data`. Objects keep their keys in insertion order.
 */
module Json {

  import opened Wrappers
  import opened OrderedMaps
  import opened CommentTree
  import opened Scraper

  datatype J =
    | JNull
    | JBool(b: bool)
    | JNum(n: real)
    | JStr(s: string)
    | JList(items: seq<J>)
    | JObj(fields: seq<(string, J)>)

  /** The dict built for a kept comment (fetcher.py:67-74). */
  function CommentJson(c: Comment): (r: J)
    ensures r.JObj? && Keys(r.fields) == ["id", "author", "body", "score", "created_utc", "replies"]
    decreases c
  {
    JObj([("id", JStr(c.id)), ("author", JStr(c.author)), ("body", JStr(c.body)),
          ("score", JNum(c.score as real)), ("created_utc", JNum(c.created)),
          ("replies", JList(CommentsJson(c.replies)))])
  }

  function CommentsJson(cs: seq<Comment>): (r: seq<J>)
    ensures |r| == |cs|
    decreases cs
  {
    if cs == [] then [] else [CommentJson(cs[0])] + CommentsJson(cs[1..])
  }

  /** The dict built for a collected post (fetcher.py:161-171). */
  function PostJson(p: Post): (r: J)
    ensures r.JObj?
    ensures Keys(r.fields)
         == ["id", "title", "author", "selftext", "score", "url", "created_utc", "num_comments", "comments"]
  {
    JObj([("id", JStr(p.id)), ("title", JStr(p.title)), ("author", JStr(p.author)),
          ("selftext", JStr(p.selftext)), ("score", JNum(p.score as real)), ("url", JStr(p.url)),
          ("created_utc", JNum(p.created)), ("num_comments", JNum(p.numComments as real)),
          ("comments", JList(CommentsJson(p.comments)))])
  }

  function PostsJson(ps: seq<Post>): (r: seq<J>)
    ensures |r| == |ps|
  {
    seq(|ps|, i requires 0 <= i < |ps| => PostJson(ps[i]))
  }

  /** `post['category'] = category` on a post dict. */
  function TagPost(p: Post, category: string): (r: J)
    ensures r.JObj? && Get(r.fields, "category") == Some(JStr(category))
    ensures Keys(r.fields) == Keys(PostJson(p).fields) + ["category"]
  {
    PutGet(PostJson(p).fields, "category", JStr(category), "category");
    PutKeys(PostJson(p).fields, "category", JStr(category));
    assert "category" !in Keys(PostJson(p).fields);
    JObj(Put(PostJson(p).fields, "category", JStr(category)))
  }

  function TagPosts(ps: seq<Post>, category: string): (r: seq<J>)
    ensures |r| == |ps|
  {
    seq(|ps|, i requires 0 <= i < |ps| => TagPost(ps[i], category))
  }

  /** `{"category": name, "posts": data}`: a run for one category (fetcher.py:605-608). */
  function SingleCategoryPayload(category: string, posts: seq<Post>): (r: J)
    ensures r.JObj? && Keys(r.fields) == ["category", "posts"]
  {
    JObj([("category", JStr(category)), ("posts", JList(PostsJson(posts)))])
  }

  /** `{"posts": data}`: a run without categories (fetcher.py:638). */
  function NoCategoryPayload(posts: seq<Post>): J
  {
    JObj([("posts", JList(PostsJson(posts)))])
  }

  /**
   * `all_data`: a run over several categories, each category's tagged posts
   * under its name, in the order the categories were fetched
   * (fetcher.py:612-621).
   */
  function MultiCategoryPayload(runs: seq<(string, seq<Post>)>): J
  {
    JObj(MultiCategoryFields(runs))
  }

  function MultiCategoryFields(runs: seq<(string, seq<Post>)>): Entries<J>
    decreases |runs|
  {
    if runs == [] then []
    else
      var n := |runs| - 1;
      Put(MultiCategoryFields(runs[..n]), runs[n].0, JList(TagPosts(runs[n].1, runs[n].0)))
  }

  /**
   * In the multi-category document every category maps to the list of its
   * posts, each tagged with the category, and a category fetched twice keeps
   * the posts of its last run.
   */
  lemma {:induction false} MultiCategoryLookup(runs: seq<(string, seq<Post>)>, i: nat)
    requires i < |runs|
    requires forall j :: i < j < |runs| ==> runs[j].0 != runs[i].0
    ensures Get(MultiCategoryFields(runs), runs[i].0) == Some(JList(TagPosts(runs[i].1, runs[i].0)))
    decreases |runs|
  {
    var n := |runs| - 1;
    PutGet(MultiCategoryFields(runs[..n]), runs[n].0, JList(TagPosts(runs[n].1, runs[n].0)), runs[i].0);
    if i < n {
      MultiCategoryLookup(runs[..n], i);
    }
  }

  /** Every value of the dict is a list. */
  predicate AllLists(m: Entries<J>)
  {
    forall i :: 0 <= i < |m| ==> m[i].1.JList?
  }

  /** Assigning a list keeps every value a list. */
  lemma {:induction false} PutKeepsLists(m: Entries<J>, k: string, v: J)
    requires AllLists(m) && v.JList?
    ensures AllLists(Put(m, k, v))
    decreases |m|
  {
    if m != [] {
      var r := Put(m, k, v);
      if m[0].0 == k {
        forall i | 0 <= i < |r| ensures r[i].1.JList? {
          if i > 0 {
            assert r[i] == m[i];
          }
        }
      } else {
        var t := Put(m[1..], k, v);
        PutKeepsLists(m[1..], k, v);
        forall i | 0 <= i < |r| ensures r[i].1.JList? {
          if i > 0 {
            assert r[i] == t[i - 1];
          }
        }
      }
    }
  }

  /** The multi-category document is a dict of lists without a repeated category. */
  lemma {:induction false} MultiCategoryFieldsShape(runs: seq<(string, seq<Post>)>)
    ensures UniqueKeys(MultiCategoryFields(runs)) && AllLists(MultiCategoryFields(runs))
    decreases |runs|
  {
    if runs != [] {
      var n := |runs| - 1;
      MultiCategoryFieldsShape(runs[..n]);
      PutUnique(MultiCategoryFields(runs[..n]), runs[n].0, JList(TagPosts(runs[n].1, runs[n].0)));
      PutKeepsLists(MultiCategoryFields(runs[..n]), runs[n].0, JList(TagPosts(runs[n].1, runs[n].0)));
    }
  }

  /** A name no run was fetched for is not a key of the multi-category document. */
  lemma {:induction false} MultiCategoryKeyAbsent(runs: seq<(string, seq<Post>)>, k: string)
    requires forall j :: 0 <= j < |runs| ==> runs[j].0 != k
    ensures k !in Keys(MultiCategoryFields(runs))
    decreases |runs|
  {
    if runs != [] {
      var n := |runs| - 1;
      MultiCategoryKeyAbsent(runs[..n], k);
      PutGet(MultiCategoryFields(runs[..n]), runs[n].0, JList(TagPosts(runs[n].1, runs[n].0)), k);
    }
  }
}
