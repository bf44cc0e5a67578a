/** The keyword filter of the search handler: a blog is kept when the keyword
    occurs, ignoring case, in its title, its author or its GitHub link. Case is
    folded for the ASCII letters only, and the keyword is matched as plain text. */
module Search {
  import opened Seqs
  import opened Tables

  function LowerChar(c: char): char {
    if 'A' <= c <= 'Z' then (c as int + 32) as char else c
  }

  function Lower(s: string): (r: string)
    ensures |r| == |s|
    ensures forall i :: 0 <= i < |s| ==> !('A' <= r[i] <= 'Z')
    ensures forall i :: 0 <= i < |s| ==>
              if 'A' <= s[i] <= 'Z' then r[i] as int == s[i] as int + 32 else r[i] == s[i]
  {
    seq(|s|, i requires 0 <= i < |s| => LowerChar(s[i]))
  }

  predicate IsPrefix(k: string, s: string) {
    |k| <= |s| && s[..|k|] == k
  }

  /** `k` occurs in `s` as a contiguous substring. */
  predicate Contains(s: string, k: string)
    decreases |s|
  {
    IsPrefix(k, s) || (s != [] && Contains(s[1..], k))
  }

  /** `k` occurs in `s` starting at offset `i`. */
  predicate OccursAt(s: string, k: string, i: nat) {
    i + |k| <= |s| && s[i..i + |k|] == k
  }

  /** SQL `field ILIKE '%keyword%'`: the lower-cased keyword occurs somewhere in
      the lower-cased field. */
  predicate ILike(field: string, keyword: string): (r: bool)
    ensures r <==> exists i: nat :: OccursAt(Lower(field), Lower(keyword), i)
  {
    ContainsIff(Lower(field), Lower(keyword));
    Contains(Lower(field), Lower(keyword))
  }

  /** A blog matches when the keyword occurs in its title, its author or its
      GitHub link; a NULL `github_link` matches nothing. */
  predicate Matches(blog: Blog, keyword: string) {
    || ILike(blog.title, keyword)
    || ILike(blog.author, keyword)
    || (blog.githubLink.Some? && ILike(blog.githubLink.value, keyword))
  }

  function MatchesKeyword(keyword: string): Blog -> bool {
    (b: Blog) => Matches(b, keyword)
  }

  /** The blogs the search query returns, in storage order: stored blogs that
      match, and every stored blog that matches. */
  function Hits(blogs: seq<Blog>, keyword: string): (r: seq<Blog>)
    ensures |r| <= |blogs|
    ensures forall k :: 0 <= k < |r| ==> r[k] in blogs && Matches(r[k], keyword)
    ensures forall i :: 0 <= i < |blogs| && Matches(blogs[i], keyword) ==> blogs[i] in r
  {
    var r := Filter(MatchesKeyword(keyword), blogs);
    forall k | 0 <= k < |r|
      ensures r[k] in blogs && Matches(r[k], keyword)
    {
      FilterMember(MatchesKeyword(keyword), blogs, r[k]);
    }
    forall i | 0 <= i < |blogs| && Matches(blogs[i], keyword)
      ensures blogs[i] in r
    {
      FilterMember(MatchesKeyword(keyword), blogs, blogs[i]);
    }
    r
  }

  // ---- Substrings ----

  lemma {:induction false} ContainsAt(s: string, k: string, i: nat)
    requires OccursAt(s, k, i)
    ensures Contains(s, k)
  {
    if i > 0 {
      assert s[1..][i - 1..i - 1 + |k|] == s[i..i + |k|];
      ContainsAt(s[1..], k, i - 1);
    }
  }

  lemma {:induction false} ContainsOffset(s: string, k: string) returns (i: nat)
    requires Contains(s, k)
    ensures OccursAt(s, k, i)
  {
    if IsPrefix(k, s) {
      i := 0;
    } else {
      var j := ContainsOffset(s[1..], k);
      assert s[1..][j..j + |k|] == s[j + 1..j + 1 + |k|];
      i := j + 1;
    }
  }

  /** Containment is occurrence at some offset. */
  lemma ContainsIff(s: string, k: string)
    ensures Contains(s, k) <==> exists i: nat :: OccursAt(s, k, i)
  {
    if Contains(s, k) {
      var i := ContainsOffset(s, k);
    }
    forall i: nat | OccursAt(s, k, i)
      ensures Contains(s, k)
    {
      ContainsAt(s, k, i);
    }
  }

  lemma LowerConcat(a: string, b: string)
    ensures Lower(a + b) == Lower(a) + Lower(b)
  {
  }

  lemma LowerIdempotent(s: string)
    ensures Lower(Lower(s)) == Lower(s)
  {
  }

  /** A keyword that occurs in a field, in any case, matches that field. */
  lemma ILikeOccurrence(field: string, before: string, keyword: string, after: string)
    requires Lower(field) == before + Lower(keyword) + after
    ensures ILike(field, keyword)
  {
    assert OccursAt(Lower(field), Lower(keyword), |before|) by {
      assert Lower(field)[|before|..|before| + |Lower(keyword)|] == Lower(keyword);
    }
  }

  /** In particular, a field that contains the keyword verbatim matches it. */
  lemma ILikeVerbatim(before: string, keyword: string, after: string)
    ensures ILike(before + keyword + after, keyword)
  {
    LowerConcat(before + keyword, after);
    LowerConcat(before, keyword);
    ILikeOccurrence(before + keyword + after, Lower(before), keyword, Lower(after));
  }

  // ---- The filter ----

  /** The search keeps exactly the stored blogs that match. */
  lemma HitsMember(blogs: seq<Blog>, keyword: string, blog: Blog)
    ensures blog in Hits(blogs, keyword) <==> blog in blogs && Matches(blog, keyword)
  {
    FilterMember(MatchesKeyword(keyword), blogs, blog);
  }

  /** Matching ignores the case of the keyword. */
  lemma HitsIgnoreKeywordCase(blogs: seq<Blog>, keyword: string)
    ensures Hits(blogs, Lower(keyword)) == Hits(blogs, keyword)
  {
    LowerIdempotent(keyword);
    FilterAgree(MatchesKeyword(Lower(keyword)), MatchesKeyword(keyword), blogs);
  }

  /** Without a GitHub link a blog matches only through its title or author. */
  lemma NoLinkMatchesTitleOrAuthor(blog: Blog, keyword: string)
    requires blog.githubLink.None?
    ensures Matches(blog, keyword) <==> ILike(blog.title, keyword) || ILike(blog.author, keyword)
  {
  }
}
