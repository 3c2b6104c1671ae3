/**
 * The keyword filter of the fetcher (`contains_keywords`) and the shape of
 * its self-reference test (`is_reddit_related`).
 */
module Keywords {

  import opened Text

  /**
   * `is_reddit_related`: a fixed set of case-insensitive regular expressions
   * over a comment body. The model takes it as a parameter.
   */
  type RelatedTest = string -> bool

  /** Some keyword, lower-cased, occurs in the already lower-cased `lowered`. */
  function AnyKeywordIn(lowered: string, keywords: seq<string>): bool
  {
    if keywords == [] then false
    else
      IsSubstring(Lower(keywords[0]), lowered) || AnyKeywordIn(lowered, keywords[1..])
  }

  /** The scan finds a keyword exactly when some keyword occurs. */
  lemma {:induction false} AnyKeywordInMeaning(lowered: string, keywords: seq<string>)
    ensures AnyKeywordIn(lowered, keywords) <==> exists i :: 0 <= i < |keywords| && IsSubstring(Lower(keywords[i]), lowered)
  {
    if keywords != [] {
      AnyKeywordInMeaning(lowered, keywords[1..]);
      if IsSubstring(Lower(keywords[0]), lowered) {
        assert 0 < |keywords| && IsSubstring(Lower(keywords[0]), lowered);
      } else if AnyKeywordIn(lowered, keywords[1..]) {
        var i :| 0 <= i < |keywords[1..]| && IsSubstring(Lower(keywords[1..][i]), lowered);
        assert keywords[1..][i] == keywords[i + 1];
      } else {
        forall i | 0 <= i < |keywords| ensures !IsSubstring(Lower(keywords[i]), lowered) {
          if i > 0 {
            assert keywords[1..][i - 1] == keywords[i];
          }
        }
      }
    }
  }

  /**
   * `contains_keywords(text, keywords)` (fetcher.py:50-55): false for an empty
   * keyword list, and otherwise true exactly when some keyword, lower-cased,
   * is a substring of the lower-cased text.
   */
  function ContainsKeywords(text: string, keywords: seq<string>): (r: bool)
    ensures keywords == [] ==> !r
    ensures r <==> exists i :: 0 <= i < |keywords| && IsSubstring(Lower(keywords[i]), Lower(text))
  {
    AnyKeywordInMeaning(Lower(text), keywords);
    if keywords == [] then false else AnyKeywordIn(Lower(text), keywords)
  }

  /**
   * Lower-casing the text first changes nothing: the post filter lower-cases
   * `title + " " + selftext` before calling `contains_keywords`, which
   * lower-cases it again.
   */
  lemma ContainsKeywordsIgnoresCase(text: string, keywords: seq<string>)
    ensures ContainsKeywords(Lower(text), keywords) == ContainsKeywords(text, keywords)
  {
    LowerIdempotent(text);
  }

  /** A keyword list split in two matches when either part matches. */
  lemma {:induction false} ContainsKeywordsAppend(text: string, a: seq<string>, b: seq<string>)
    ensures ContainsKeywords(text, a + b) == (ContainsKeywords(text, a) || ContainsKeywords(text, b))
  {
    var t := Lower(text);
    if ContainsKeywords(text, a + b) {
      var i :| 0 <= i < |a + b| && IsSubstring(Lower((a + b)[i]), t);
      if i < |a| {
        assert (a + b)[i] == a[i];
      } else {
        assert (a + b)[i] == b[i - |a|];
      }
    }
    if ContainsKeywords(text, a) {
      var i :| 0 <= i < |a| && IsSubstring(Lower(a[i]), t);
      assert (a + b)[i] == a[i];
    }
    if ContainsKeywords(text, b) {
      var i :| 0 <= i < |b| && IsSubstring(Lower(b[i]), t);
      assert (a + b)[|a| + i] == b[i];
    }
  }
}
