/**
 * The comment-tree filter of the fetcher: `process_comment` turns a raw
 * comment thread into a filtered tree of the same shape, and
 * `count_replies` counts the nodes below a kept comment.
 */
module CommentTree {

  import opened Wrappers
  import opened Keywords

  /** `str(comment.author)`: a deleted account (`None`) prints as "None". */
  function AuthorName(author: Option<string>): (r: string)
    ensures author.Some? ==> r == author.value
    ensures author.None? ==> r == "None"
  {
    match author
    case None => "None"
    case Some(name) => name
  }

  /**
   * A node of the thread as the upstream library delivers it: either a
   * "load more comments" placeholder or a real comment with its replies.
   */
  datatype Raw =
    | More
    | Real(id: string, author: Option<string>, body: string, score: int, created: real, replies: seq<Raw>)

  /** The comment record that `process_comment` builds (fetcher.py:67-74). */
  datatype Comment = Comment(id: string, author: string, body: string, score: int, created: real, replies: seq<Comment>)

  /**
   * The two body tests of `process_comment`: not self-referential, and no
   * unwanted keyword when the unwanted list is non-empty.
   */
  predicate BodyAdmitted(body: string, unwanted: seq<string>, related: RelatedTest)
  {
    !related(body) && !(|unwanted| > 0 && ContainsKeywords(body, unwanted))
  }

  /**
   * `process_comment`: `None` for a placeholder or a rejected body, which
   * drops the whole subtree; otherwise the record of the node, whose replies
   * are the kept replies in their original order.
   */
  function Process(raw: Raw, unwanted: seq<string>, related: RelatedTest): (r: Option<Comment>)
    ensures r.None? <==> raw.More? || !BodyAdmitted(raw.body, unwanted, related)
    ensures r.Some? ==>
              && r.value.id == raw.id && r.value.author == AuthorName(raw.author)
              && r.value.body == raw.body && r.value.score == raw.score && r.value.created == raw.created
    decreases raw
  {
    match raw
    case More => None
    case Real(id, author, body, score, created, replies) =>
      if related(body) then None
      else if |unwanted| > 0 && ContainsKeywords(body, unwanted) then None
      else Some(Comment(id, AuthorName(author), body, score, created, ProcessReplies(replies, unwanted, related)))
  }

  /** The non-`None` results of processing each reply, in order. */
  function ProcessReplies(rs: seq<Raw>, unwanted: seq<string>, related: RelatedTest): (r: seq<Comment>)
    ensures |r| <= |rs|
    decreases rs
  {
    if rs == [] then []
    else
      var head := Process(rs[0], unwanted, related);
      (if head.Some? then [head.value] else []) + ProcessReplies(rs[1..], unwanted, related)
  }

  /** Processing a list of replies piecewise gives the same result. */
  lemma {:induction false} ProcessRepliesAppend(a: seq<Raw>, b: seq<Raw>, unwanted: seq<string>, related: RelatedTest)
    ensures ProcessReplies(a + b, unwanted, related)
         == ProcessReplies(a, unwanted, related) + ProcessReplies(b, unwanted, related)
  {
    if a != [] {
      assert (a + b)[0] == a[0];
      assert (a + b)[1..] == a[1..] + b;
      ProcessRepliesAppend(a[1..], b, unwanted, related);
    } else {
      assert a + b == b;
    }
  }

  /** Every node of a tree in pre-order, the root first. */
  function Flatten(c: Comment): (r: seq<Comment>)
    ensures |r| >= 1 && r[0] == c
    decreases c
  {
    [c] + FlattenAll(c.replies)
  }

  /** Every node of a forest in pre-order. */
  function FlattenAll(cs: seq<Comment>): seq<Comment>
    decreases cs
  {
    if cs == [] then [] else Flatten(cs[0]) + FlattenAll(cs[1..])
  }

  lemma {:induction false} FlattenAllAppend(a: seq<Comment>, b: seq<Comment>)
    ensures FlattenAll(a + b) == FlattenAll(a) + FlattenAll(b)
  {
    if a != [] {
      assert (a + b)[0] == a[0];
      assert (a + b)[1..] == a[1..] + b;
      FlattenAllAppend(a[1..], b);
    } else {
      assert a + b == b;
    }
  }

  /**
   * `process_comment` as the source runs it: reject or build the record,
   * then process the replies one by one, appending each kept one.
   */
  method ProcessComment(raw: Raw, unwanted: seq<string>, related: RelatedTest) returns (r: Option<Comment>)
    ensures r == Process(raw, unwanted, related)
    decreases raw
  {
    if raw.More? {
      return None;
    }
    if related(raw.body) {
      return None;
    }
    if |unwanted| > 0 && ContainsKeywords(raw.body, unwanted) {
      return None;
    }
    var replies: seq<Comment> := [];
    var i := 0;
    while i < |raw.replies|
      invariant 0 <= i <= |raw.replies|
      invariant replies == ProcessReplies(raw.replies[..i], unwanted, related)
    {
      var reply := raw.replies[i];
      var processed := ProcessComment(reply, unwanted, related);
      assert raw.replies[..i + 1] == raw.replies[..i] + [reply];
      ProcessRepliesAppend(raw.replies[..i], [reply], unwanted, related);
      if processed.Some? {
        replies := replies + [processed.value];
      }
      i := i + 1;
    }
    assert raw.replies[..i] == raw.replies;
    r := Some(Comment(raw.id, AuthorName(raw.author), raw.body, raw.score, raw.created, replies));
  }

  /** `count_replies`: the number of nodes of the tree below its root. */
  method CountReplies(c: Comment) returns (count: nat)
    ensures count == |Flatten(c)| - 1
    decreases c
  {
    count := 0;
    var i := 0;
    while i < |c.replies|
      invariant 0 <= i <= |c.replies|
      invariant count == |FlattenAll(c.replies[..i])|
    {
      var reply := c.replies[i];
      var below := CountReplies(reply);
      assert c.replies[..i + 1] == c.replies[..i] + [reply];
      FlattenAllAppend(c.replies[..i], [reply]);
      assert FlattenAll([reply]) == Flatten(reply);
      count := count + 1 + below;
      i := i + 1;
    }
    assert c.replies[..i] == c.replies;
  }

  /** Every node of a kept tree is a comment whose body passes both tests. */
  lemma {:induction false} ProcessedTreeClean(raw: Raw, unwanted: seq<string>, related: RelatedTest)
    requires Process(raw, unwanted, related).Some?
    ensures forall x :: x in Flatten(Process(raw, unwanted, related).value) ==> BodyAdmitted(x.body, unwanted, related)
    decreases raw
  {
    ProcessedForestClean(raw.replies, unwanted, related);
  }

  /** Every node of the kept replies passes both tests. */
  lemma {:induction false} ProcessedForestClean(rs: seq<Raw>, unwanted: seq<string>, related: RelatedTest)
    ensures forall x :: x in FlattenAll(ProcessReplies(rs, unwanted, related)) ==> BodyAdmitted(x.body, unwanted, related)
    decreases rs
  {
    if rs != [] {
      var head := Process(rs[0], unwanted, related);
      var out := ProcessReplies(rs, unwanted, related);
      var tail := ProcessReplies(rs[1..], unwanted, related);
      ProcessedForestClean(rs[1..], unwanted, related);
      if head.Some? {
        ProcessedTreeClean(rs[0], unwanted, related);
        assert out == [head.value] + tail;
        assert FlattenAll(out) == Flatten(head.value) + FlattenAll(tail) by {
          assert out[0] == head.value && out[1..] == tail;
        }
      } else {
        assert out == tail;
      }
    }
  }

  /**
   * A rejected reply vanishes with everything below it: the kept replies
   * are those of the replies before it followed by those of the replies
   * after it, even when its own descendants would pass every test.
   */
  lemma RejectedReplyVanishes(rs: seq<Raw>, i: nat, unwanted: seq<string>, related: RelatedTest)
    requires i < |rs| && Process(rs[i], unwanted, related).None?
    ensures ProcessReplies(rs, unwanted, related)
         == ProcessReplies(rs[..i], unwanted, related) + ProcessReplies(rs[i + 1..], unwanted, related)
  {
    assert rs == rs[..i] + ([rs[i]] + rs[i + 1..]);
    ProcessRepliesAppend(rs[..i], [rs[i]] + rs[i + 1..], unwanted, related);
    assert ([rs[i]] + rs[i + 1..])[1..] == rs[i + 1..];
  }

  /** The indices of the replies that `process_comment` keeps, in increasing order. */
  function KeptIndices(rs: seq<Raw>, unwanted: seq<string>, related: RelatedTest): seq<nat>
    decreases |rs|
  {
    if rs == [] then []
    else
      var n := |rs| - 1;
      KeptIndices(rs[..n], unwanted, related) + (if Process(rs[n], unwanted, related).Some? then [n] else [])
  }

  /** Processing the last reply of a list extends the result of the others. */
  lemma ProcessRepliesSnoc(rs: seq<Raw>, unwanted: seq<string>, related: RelatedTest)
    requires rs != []
    ensures var n := |rs| - 1; var last := Process(rs[n], unwanted, related);
      ProcessReplies(rs, unwanted, related)
      == ProcessReplies(rs[..n], unwanted, related) + (if last.Some? then [last.value] else [])
  {
    var n := |rs| - 1;
    assert rs == rs[..n] + [rs[n]];
    ProcessRepliesAppend(rs[..n], [rs[n]], unwanted, related);
  }

  /** Every kept index is in range, and the kept indices increase. */
  lemma {:induction false} KeptIndicesIncrease(rs: seq<Raw>, unwanted: seq<string>, related: RelatedTest)
    ensures forall j :: 0 <= j < |KeptIndices(rs, unwanted, related)| ==> KeptIndices(rs, unwanted, related)[j] < |rs|
    ensures forall j, j' :: 0 <= j < j' < |KeptIndices(rs, unwanted, related)| ==>
              KeptIndices(rs, unwanted, related)[j] < KeptIndices(rs, unwanted, related)[j']
    decreases |rs|
  {
    if rs != [] {
      var n := |rs| - 1;
      KeptIndicesIncrease(rs[..n], unwanted, related);
      var ks0 := KeptIndices(rs[..n], unwanted, related);
      var ks := KeptIndices(rs, unwanted, related);
      assert ks == ks0 + (if Process(rs[n], unwanted, related).Some? then [n] else []);
      assert |rs[..n]| == n;
      assert forall j :: 0 <= j < |ks0| ==> ks0[j] < n;
      forall j, j' | 0 <= j < j' < |ks| ensures ks[j] < ks[j'] {
        if j' < |ks0| {
          assert ks[j] == ks0[j] && ks[j'] == ks0[j'];
        } else {
          assert ks[j'] == n && ks[j] == ks0[j];
        }
      }
    }
  }

  /** An input reply is among the kept indices exactly when it is kept. */
  lemma {:induction false} KeptIndicesMembership(rs: seq<Raw>, unwanted: seq<string>, related: RelatedTest)
    ensures var ks := KeptIndices(rs, unwanted, related);
      forall i :: 0 <= i < |rs| ==> (Process(rs[i], unwanted, related).Some? <==> i in ks)
    decreases |rs|
  {
    if rs != [] {
      var n := |rs| - 1;
      var pre := rs[..n];
      KeptIndicesMembership(pre, unwanted, related);
      KeptIndicesIncrease(pre, unwanted, related);
      var ks := KeptIndices(rs, unwanted, related);
      var ks0 := KeptIndices(pre, unwanted, related);
      forall i | 0 <= i < |rs| ensures Process(rs[i], unwanted, related).Some? <==> i in ks {
        if i < n {
          assert rs[i] == pre[i];
          assert n !in ks0;
        }
      }
    }
  }

  /** The j-th kept reply is the result of processing the j-th kept input. */
  lemma {:induction false} KeptIndicesMatch(rs: seq<Raw>, unwanted: seq<string>, related: RelatedTest)
    ensures var out := ProcessReplies(rs, unwanted, related);
      var ks := KeptIndices(rs, unwanted, related);
      && |out| == |ks|
      && (forall j :: 0 <= j < |ks| ==> ks[j] < |rs| && Process(rs[ks[j]], unwanted, related) == Some(out[j]))
    decreases |rs|
  {
    if rs != [] {
      var n := |rs| - 1;
      var pre := rs[..n];
      KeptIndicesMatch(pre, unwanted, related);
      KeptIndicesIncrease(pre, unwanted, related);
      ProcessRepliesSnoc(rs, unwanted, related);
      var ks0 := KeptIndices(pre, unwanted, related);
      forall j | 0 <= j < |ks0| ensures rs[ks0[j]] == pre[ks0[j]] {
      }
    }
  }

  /**
   * The kept replies are exactly the results for the replies that are
   * kept, in their original order: the j-th output reply comes from the
   * j-th kept input reply, the kept indices increase, and an input reply
   * is among them exactly when processing it does not give `None`.
   */
  lemma KeptRepliesExact(rs: seq<Raw>, unwanted: seq<string>, related: RelatedTest)
    ensures var out := ProcessReplies(rs, unwanted, related);
      var ks := KeptIndices(rs, unwanted, related);
      && |out| == |ks|
      && (forall j :: 0 <= j < |ks| ==> ks[j] < |rs| && Process(rs[ks[j]], unwanted, related) == Some(out[j]))
      && (forall j, j' :: 0 <= j < j' < |ks| ==> ks[j] < ks[j'])
      && (forall i :: 0 <= i < |rs| ==> (Process(rs[i], unwanted, related).Some? <==> i in ks))
  {
    KeptIndicesIncrease(rs, unwanted, related);
    KeptIndicesMembership(rs, unwanted, related);
    KeptIndicesMatch(rs, unwanted, related);
  }
}
