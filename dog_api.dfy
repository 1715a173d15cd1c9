/**
 * The request target built by `fetchImages` in src/api.ts: the breed name
 * has its first '-' turned into '/' and is spliced into the fixed Dog API
 * URL template that asks for 12 random images. The network round trip and
 * the JSON decoding that follow are not part of this module.
 */
module DogApi {
  import opened Wrappers
  import opened Strings

  /** `s.replace(from, to)` of JavaScript with one-character string
      arguments: only the first occurrence of `from` is replaced. */
  function ReplaceFirst(s: string, from: char, to: char): (r: string)
    ensures |r| == |s|
    ensures from !in s ==> r == s
    ensures from in s ==>
      exists i :: 0 <= i < |s| && s[i] == from && from !in s[..i] && r == s[i := to]
  {
    var i := IndexOf(s, from);
    if i < 0 then s
    else
      var r := s[..i] + [to] + s[i + 1..];
      assert r == s[i := to];
      r
  }

  /** Reference definition: every occurrence of `from` replaced by `to`. */
  function ReplaceAll(s: string, from: char, to: char): (r: string)
  {
    seq(|s|, i requires 0 <= i < |s| => if s[i] == from then to else s[i])
  }

  /** The breed written as the API's path: "australian-shepherd" becomes
      "australian/shepherd". */
  function BreedPath(breed: string): (path: string)
  {
    ReplaceFirst(breed, '-', '/')
  }

  const UrlPrefix: string := "https://dog.ceo/api/breed/"
  /** Asks for 12 random images, whatever the breed. */
  const UrlSuffix: string := "/images/random/12"

  /** The URL string `fetchImages(breed)` passes to `fetch`. */
  function RequestUrl(breed: string): (url: string)
    ensures |url| == |UrlPrefix| + |breed| + |UrlSuffix|
    ensures url[..|UrlPrefix|] == UrlPrefix
    ensures url[|url| - |UrlSuffix|..] == UrlSuffix
  {
    UrlPrefix + BreedPath(breed) + UrlSuffix
  }

  /** Reads the breed path back out of a request URL, if it has the shape
      that RequestUrl produces. */
  function ParseRequestUrl(url: string): (path: Option<string>)
    ensures path.Some? ==> url == UrlPrefix + path.value + UrlSuffix
  {
    if |url| >= |UrlPrefix| + |UrlSuffix|
       && url[..|UrlPrefix|] == UrlPrefix
       && url[|url| - |UrlSuffix|..] == UrlSuffix
    then
      var path := url[|UrlPrefix|..|url| - |UrlSuffix|];
      assert url == url[..|UrlPrefix|] + path + url[|url| - |UrlSuffix|..];
      Some(path)
    else None
  }

  /** The request URL determines the breed path it was built from. */
  lemma RequestUrlRoundTrip(breed: string)
    ensures ParseRequestUrl(RequestUrl(breed)) == Some(BreedPath(breed))
  {
    var url := RequestUrl(breed);
    assert url[|UrlPrefix|..|url| - |UrlSuffix|] == BreedPath(breed);
  }

  /** Two breeds give the same request URL exactly when they give the same
      breed path. */
  lemma RequestUrlInjective(b1: string, b2: string)
    ensures RequestUrl(b1) == RequestUrl(b2) <==> BreedPath(b1) == BreedPath(b2)
  {
    if RequestUrl(b1) == RequestUrl(b2) {
      RequestUrlRoundTrip(b1);
      RequestUrlRoundTrip(b2);
    }
  }

  /** Only the first '-' becomes '/': every character before it and every
      character after it, later dashes included, is left as it was. */
  lemma {:induction false} BreedPathOnlyFirstDash(breed: string)
    requires '-' in breed
    ensures var i := IndexOf(breed, '-');
      && BreedPath(breed)[..i] == breed[..i]
      && BreedPath(breed)[i] == '/'
      && BreedPath(breed)[i + 1..] == breed[i + 1..]
  {
  }

  /** A breed without '-' is used as it is. */
  lemma BreedPathNoDash(breed: string)
    requires '-' !in breed
    ensures BreedPath(breed) == breed
    ensures RequestUrl(breed) == UrlPrefix + breed + UrlSuffix
  {
  }

  /** Splitting a string at its first `from`: the part before it and the
      part after it come through unchanged, with `to` in between. */
  lemma ReplaceFirstSplit(pre: string, from: char, to: char, post: string)
    requires from !in pre
    ensures ReplaceFirst(pre + [from] + post, from, to) == pre + [to] + post
  {
    var s := pre + [from] + post;
    assert s == pre + ([from] + post);
    IndexOfAfterPrefix(pre, from, [from] + post);
    assert s[..|pre|] == pre && s[|pre| + 1..] == post;
  }

  /** A breed whose first '-' follows `pre` is requested as `pre`, '/',
      and the rest unchanged. */
  lemma BreedPathSplit(pre: string, post: string)
    requires '-' !in pre
    ensures BreedPath(pre + ['-'] + post) == pre + ['/'] + post
  {
    ReplaceFirstSplit(pre, '-', '/', post);
  }

  /** The rewrite is undone by turning the first '/' back into '-', as long
      as the breed had no '/' of its own. */
  lemma BreedPathRestore(breed: string)
    requires '/' !in breed
    ensures ReplaceFirst(BreedPath(breed), '/', '-') == breed
  {
    if '-' in breed {
      var i := IndexOf(breed, '-');
      var pre, post := breed[..i], breed[i + 1..];
      assert breed == pre + ['-'] + post;
      ReplaceFirstSplit(pre, '-', '/', post);
      assert '/' !in pre by {
        assert forall m | 0 <= m < i :: pre[m] == breed[m];
      }
      ReplaceFirstSplit(pre, '/', '-', post);
    }
  }

  /** Replacing the first '-' agrees with replacing every '-' exactly when
      the breed holds at most one '-'. */
  lemma ReplaceFirstIsReplaceAllIff(s: string)
    ensures ReplaceFirst(s, '-', '/') == ReplaceAll(s, '-', '/') <==>
      forall i, j :: 0 <= i < j < |s| && s[i] == '-' ==> s[j] != '-'
  {
    var first := ReplaceFirst(s, '-', '/');
    var all := ReplaceAll(s, '-', '/');
    if forall i, j :: 0 <= i < j < |s| && s[i] == '-' ==> s[j] != '-' {
      forall k | 0 <= k < |s| ensures first[k] == all[k] {
        var i := IndexOf(s, '-');
        assert forall m | 0 <= m < i :: s[..i][m] == s[m];
      }
      assert first == all;
    } else {
      var i, j :| 0 <= i < j < |s| && s[i] == '-' && s[j] == '-';
      assert first[j] == '-' by {
        var f := IndexOf(s, '-');
        if f != j {
          assert s[..j][i] == '-';
        }
      }
      assert all[j] == '/';
    }
  }

  /** The composite-breed example: "a-b-c" is requested as "a/b-c", not "a/b/c". */
  lemma BreedPathExample()
    ensures BreedPath("a-b-c") == "a/b-c"
  {
    assert IndexOf("a-b-c", '-') == 1;
  }

  /** A sub-breed reaches the API as a nested path. */
  lemma BreedPathSubBreed()
    ensures BreedPath("australian" + "-" + "shepherd") == "australian" + "/" + "shepherd"
  {
    BreedPathSplit("australian", "shepherd");
  }
}
