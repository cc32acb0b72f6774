/**
 * Texts built by placing a value between a fixed prefix and a fixed suffix,
 * as the front end's template literals do, and the reading of that value back.
 */
module Affixes {
  /** `s` begins with `pre` and ends with `post`, and the two do not overlap. */
  predicate Framed(s: string, pre: string, post: string)
  {
    |s| >= |pre| + |post| && s[..|pre|] == pre && s[|s| - |post|..] == post
  }

  /** The text between the prefix and the suffix. */
  function Inner(s: string, pre: string, post: string): string
    requires Framed(s, pre, post)
  {
    s[|pre|..|s| - |post|]
  }

  /** A text built around `mid` is framed, and its inner text is `mid`. */
  lemma FramedConcat(pre: string, mid: string, post: string)
    ensures Framed(pre + mid + post, pre, post)
    ensures Inner(pre + mid + post, pre, post) == mid
  {
    var s := pre + mid + post;
    assert s[..|pre|] == pre;
    assert s[|s| - |post|..] == post;
    assert s[|pre|..|s| - |post|] == mid;
  }

  /** A framed text is its prefix, its inner text and its suffix. */
  lemma FramedSplit(s: string, pre: string, post: string)
    requires Framed(s, pre, post)
    ensures pre + Inner(s, pre, post) + post == s
  {
    assert s == s[..|pre|] + s[|pre|..|s| - |post|] + s[|s| - |post|..];
  }
}
