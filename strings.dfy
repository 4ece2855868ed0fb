/** Python's `str.strip()` with no argument, and `str.startswith`. */
module Strings {

  /** Python's `str.isspace()` for one character: the characters `str.strip()` removes. */
  predicate IsSpace(c: char) {
    || '\U{0009}' <= c <= '\U{000D}' || '\U{001C}' <= c <= '\U{0020}'
    || c == '\U{0085}' || c == '\U{00A0}' || c == '\U{1680}'
    || '\U{2000}' <= c <= '\U{200A}'
    || c == '\U{2028}' || c == '\U{2029}' || c == '\U{202F}' || c == '\U{205F}' || c == '\U{3000}'
  }

  /** The same characters listed one by one: Unicode's White_Space code points together with
      the ASCII separators U+001C..U+001F, which is what `str.isspace()` accepts. */
  const Whitespace: set<char> := {'\U{0009}', '\U{000A}', '\U{000B}', '\U{000C}', '\U{000D}', '\U{001C}', '\U{001D}', '\U{001E}', '\U{001F}', '\U{0020}', '\U{0085}', '\U{00A0}', '\U{1680}', '\U{2000}', '\U{2001}', '\U{2002}', '\U{2003}', '\U{2004}', '\U{2005}', '\U{2006}', '\U{2007}', '\U{2008}', '\U{2009}', '\U{200A}', '\U{2028}', '\U{2029}', '\U{202F}', '\U{205F}', '\U{3000}'}

  /** The ranges in `IsSpace` cover exactly the listed characters. */
  lemma IsSpaceIsListed(c: char)
    ensures IsSpace(c) <==> c in Whitespace
  {
  }

  /** `s.startswith(p)`. */
  predicate StartsWith(s: string, p: string) {
    |p| <= |s| && s[..|p|] == p
  }

  /** Neither end of `s` is whitespace (the empty string qualifies). */
  predicate Trimmed(s: string) {
    s == [] || (!IsSpace(s[0]) && !IsSpace(s[|s| - 1]))
  }

  /** `s.lstrip()`: the longest suffix of `s` that does not start with whitespace. */
  function TrimStart(s: string): (r: string)
    ensures |r| <= |s| && r == s[|s| - |r|..]
    ensures forall k :: 0 <= k < |s| - |r| ==> IsSpace(s[k])
    ensures r == [] || !IsSpace(r[0])
  {
    if |s| > 0 && IsSpace(s[0]) then TrimStart(s[1..]) else s
  }

  /** `s.rstrip()`: the longest prefix of `s` that does not end with whitespace. */
  function TrimEnd(s: string): (r: string)
    ensures |r| <= |s| && r == s[..|r|]
    ensures forall k :: |r| <= k < |s| ==> IsSpace(s[k])
    ensures r == [] || !IsSpace(r[|r| - 1])
  {
    if |s| > 0 && IsSpace(s[|s| - 1]) then TrimEnd(s[..|s| - 1]) else s
  }

  /** How many leading characters `strip()` drops. */
  function StripOffset(s: string): (n: nat)
    ensures n <= |s|
  {
    |s| - |TrimStart(s)|
  }

  /** `s.strip()`. */
  function Strip(s: string): string {
    TrimEnd(TrimStart(s))
  }

  /** `s.strip()` is `s[lo..hi]` where everything outside `lo..hi` is whitespace and neither
      end of `s[lo..hi]` is. */
  lemma StripIsSlice(s: string)
    ensures StripOffset(s) + |Strip(s)| <= |s|
    ensures Strip(s) == s[StripOffset(s)..StripOffset(s) + |Strip(s)|]
    ensures forall k :: 0 <= k < StripOffset(s) ==> IsSpace(s[k])
    ensures forall k :: StripOffset(s) + |Strip(s)| <= k < |s| ==> IsSpace(s[k])
    ensures Trimmed(Strip(s))
  {
    var t := TrimStart(s);
    SuffixThenPrefix(s, |s| - |t|, t, TrimEnd(t));
  }

  /** A prefix `r` of the suffix `t` of `s` that starts at `n`, with only whitespace after `r`
      in `t`, is the slice of `s` at `n`, followed in `s` by whitespace only; when `t` does not
      start with whitespace and `r` does not end with it, `r` is trimmed. */
  lemma SuffixThenPrefix(s: string, n: nat, t: string, r: string)
    requires n <= |s| && t == s[n..]
    requires |r| <= |t| && r == t[..|r|]
    requires forall k :: |r| <= k < |t| ==> IsSpace(t[k])
    requires t == [] || !IsSpace(t[0])
    requires r == [] || !IsSpace(r[|r| - 1])
    ensures n + |r| <= |s| && r == s[n..n + |r|]
    ensures forall k :: n + |r| <= k < |s| ==> IsSpace(s[k])
    ensures Trimmed(r)
  {
    forall k | n + |r| <= k < |s|
      ensures IsSpace(s[k])
    {
      assert s[k] == t[k - n];
    }
    if r != [] {
      assert r[0] == t[0];
    }
  }

  /** A string whose ends are not whitespace is left alone by `strip()`. */
  lemma StripKeepsTrimmed(s: string)
    requires Trimmed(s)
    ensures Strip(s) == s
  {
  }

  /** `strip()` is idempotent. */
  lemma StripIdempotent(s: string)
    ensures Strip(Strip(s)) == Strip(s)
  {
    StripIsSlice(s);
    StripKeepsTrimmed(Strip(s));
  }

  /** Leading whitespace makes no difference to `lstrip()`. */
  lemma {:induction false} TrimStartSkipsSpace(pre: string, x: string)
    requires forall k :: 0 <= k < |pre| ==> IsSpace(pre[k])
    ensures TrimStart(pre + x) == TrimStart(x)
  {
    if pre == [] {
      assert pre + x == x;
    } else {
      assert (pre + x)[0] == pre[0];
      assert (pre + x)[1..] == pre[1..] + x;
      TrimStartSkipsSpace(pre[1..], x);
    }
  }

  /** Trailing whitespace makes no difference to `rstrip()`. */
  lemma {:induction false} TrimEndSkipsSpace(x: string, post: string)
    requires forall k :: 0 <= k < |post| ==> IsSpace(post[k])
    ensures TrimEnd(x + post) == TrimEnd(x)
  {
    if post == [] {
      assert x + post == x;
    } else {
      assert (x + post)[|x + post| - 1] == post[|post| - 1];
      assert (x + post)[..|x + post| - 1] == x + post[..|post| - 1];
      TrimEndSkipsSpace(x, post[..|post| - 1]);
    }
  }

  /** `strip()` is determined by its characterisation: whitespace around a trimmed string is
      exactly what it removes. */
  lemma StripOuter(s: string, pre: string, t: string, post: string)
    requires s == pre + t + post
    requires forall k :: 0 <= k < |pre| ==> IsSpace(pre[k])
    requires forall k :: 0 <= k < |post| ==> IsSpace(post[k])
    requires Trimmed(t)
    ensures Strip(s) == t
  {
    assert s == pre + (t + post);
    TrimStartSkipsSpace(pre, t + post);
    if t == [] {
      assert t + post == post;
      TrimStartSkipsSpace(post, []);
      assert post + [] == post;
    } else {
      TrimEndSkipsSpace(t, post);
    }
  }
}
