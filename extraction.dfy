/** `_extract_sql_from_markdown` (query.py): one `re.search` with the fixed pattern
    ```` ```(?:sql\n)?(.*?)``` ```` under DOTALL, then `strip()` of the group or, when nothing
    matches, of the whole input. The regex engine is modelled for this one pattern only:
    positions are tried left to right, the optional tag is tried first and given up on
    backtracking, and the lazy group ends at the first triple backtick it reaches. */
module SqlExtraction {
  import opened Strings

  datatype Option<T> = None | Some(value: T)

  /** A successful match: it begins at `open`, group 1 is `s[start..stop]`, and the closing
      triple backtick sits at `stop`. */
  datatype Match = Match(open: nat, start: nat, stop: nat)

  /** A triple backtick begins at `i`. */
  predicate FenceAt(s: string, i: int) {
    0 <= i && i + 3 <= |s| && s[i] == '`' && s[i + 1] == '`' && s[i + 2] == '`'
  }

  /** The exact lower-case tag `sql\n` begins at `i`. */
  predicate TagAt(s: string, i: int) {
    0 <= i && i + 4 <= |s| && s[i] == 's' && s[i + 1] == 'q' && s[i + 2] == 'l' && s[i + 3] == '\n'
  }

  /** `s` contains the substring "```". */
  ghost predicate HasFence(s: string) {
    exists k :: FenceAt(s, k)
  }

  /** A triple backtick at `o` that a later, non-overlapping triple backtick can close. */
  ghost predicate Closable(s: string, o: int) {
    FenceAt(s, o) && exists j :: o + 3 <= j && FenceAt(s, j)
  }

  /** Where group 1 begins for an opening fence at `o`: after the tag when there is one. */
  function ContentStart(s: string, o: nat): nat {
    if TagAt(s, o + 3) then o + 7 else o + 3
  }

  /** The first triple backtick at or after `from`: where the lazy `(.*?)` stops. */
  function FindFence(s: string, from: nat): (r: Option<nat>)
    decreases |s| - from
    ensures r.Some? ==> from <= r.value && FenceAt(s, r.value)
    ensures r.Some? ==> forall k :: from <= k < r.value ==> !FenceAt(s, k)
    ensures r.None? ==> forall k :: from <= k ==> !FenceAt(s, k)
  {
    if from + 3 > |s| then None
    else if FenceAt(s, from) then Some(from)
    else FindFence(s, from + 1)
  }

  /** The pattern anchored at `i`: the opening fence, then the optional tag (tried first),
      then the shortest content up to a triple backtick. When the tag was taken and no fence
      follows it, the engine backtracks and retries without the tag. */
  function MatchAt(s: string, i: nat): (m: Option<Match>)
    ensures m.Some? <==> Closable(s, i)
    ensures m.Some? ==> m.value.open == i && m.value.start == ContentStart(s, i)
    ensures m.Some? ==> m.value.start <= m.value.stop && FenceAt(s, m.value.stop)
    ensures m.Some? ==> forall k :: m.value.start <= k < m.value.stop ==> !FenceAt(s, k)
  {
    if !FenceAt(s, i) then None
    else
      var tagged := if TagAt(s, i + 3) then FindFence(s, i + 7) else None;
      if tagged.Some? then Some(Match(i, i + 7, tagged.value))
      else
        match FindFence(s, i + 3)
        case Some(j) =>
          assert Closable(s, i);
          Some(Match(i, i + 3, j))
        case None => None
  }

  /** `re.search`: the match at the leftmost position `i`, `from <= i <= |s|`, where one exists. */
  function SearchFrom(s: string, from: nat): (m: Option<Match>)
    decreases |s| + 1 - from
    ensures m.None? ==> forall o :: from <= o ==> !Closable(s, o)
    ensures m.Some? ==> from <= m.value.open && MatchAt(s, m.value.open) == m
    ensures m.Some? ==> forall o :: from <= o < m.value.open ==> !Closable(s, o)
  {
    if from > |s| then None
    else
      match MatchAt(s, from)
      case Some(g) => Some(g)
      case None => SearchFrom(s, from + 1)
  }

  /** `_extract_sql_from_markdown`: the stripped group of the first match, or the stripped
      input when the pattern does not match anywhere. */
  function ExtractSql(s: string): (r: string)
    ensures |r| <= |s|
    ensures Trimmed(r)
  {
    match SearchFrom(s, 0)
    case Some(m) => Strip(s[m.start..m.stop])
    case None => Strip(s)
  }

  // ---- What the pattern picks ----

  /** With the tag present, giving it up cannot help: the four tag characters hold no
      backtick, so a fence at or after the tag start is a fence after the tag. */
  lemma TagBacktrackFails(s: string, i: nat)
    requires TagAt(s, i + 3) && FindFence(s, i + 7).None?
    ensures FindFence(s, i + 3).None?
  {
    assert forall k :: i + 3 <= k < i + 7 ==> !FenceAt(s, k);
  }

  /** Fences inside a slice are fences of the whole string. */
  lemma FenceInSlice(s: string, lo: nat, hi: nat, k: int)
    requires lo <= hi <= |s| && FenceAt(s[lo..hi], k)
    ensures FenceAt(s, lo + k) && lo + k + 3 <= hi
  {
  }

  /** A slice that holds no fence of the whole string holds none of its own. */
  lemma NoFenceInSlice(s: string, lo: nat, hi: nat)
    requires lo <= hi <= |s|
    requires forall k :: lo <= k && k + 3 <= hi ==> !FenceAt(s, k)
    ensures !HasFence(s[lo..hi])
  {
    forall k ensures !FenceAt(s[lo..hi], k) {
      if 0 <= k && k + 3 <= hi - lo {
        assert !FenceAt(s, lo + k);
        assert s[lo..hi][k] == s[lo + k] && s[lo..hi][k + 1] == s[lo + k + 1] && s[lo..hi][k + 2] == s[lo + k + 2];
      }
    }
  }

  /** Input in which no triple backtick is followed, three or more characters later, by
      another is only stripped. */
  lemma UnclosedMeansStrip(s: string)
    requires forall o, j :: FenceAt(s, o) && FenceAt(s, j) ==> j < o + 3
    ensures ExtractSql(s) == Strip(s)
  {
    assert forall o :: !Closable(s, o);
  }

  /** Input without a triple backtick is only stripped. */
  lemma NoFenceMeansStrip(s: string)
    requires !HasFence(s)
    ensures ExtractSql(s) == Strip(s)
  {
    UnclosedMeansStrip(s);
  }

  /** First match wins: the result is the stripped text from the leftmost triple backtick
      (and its `sql\n` tag, if any) to the first triple backtick after that; the text
      before and after, later blocks included, is discarded. */
  lemma FirstBlockWins(s: string, o: nat, j: nat)
    requires FenceAt(s, o) && forall k :: 0 <= k < o ==> !FenceAt(s, k)
    requires ContentStart(s, o) <= j && FenceAt(s, j)
    requires forall k :: ContentStart(s, o) <= k < j ==> !FenceAt(s, k)
    ensures ExtractSql(s) == Strip(s[ContentStart(s, o)..j])
  {
    assert Closable(s, o);
    var m := SearchFrom(s, 0).value;
    assert m.open == o by {
      assert m.open < o ==> !FenceAt(s, m.open);
      assert o < m.open ==> !Closable(s, o);
    }
    assert m.stop == j by {
      assert m.stop < j ==> !FenceAt(s, m.stop);
      assert j < m.stop ==> !FenceAt(s, j);
    }
  }

  /** What is left of a block's text once the pattern has skipped its optional tag. */
  function DropTag(b: string): (t: string)
    ensures TagAt(b, 0) ==> b == "sql\n" + t
    ensures !TagAt(b, 0) ==> t == b
  {
    if TagAt(b, 0) then b[4..] else b
  }

  /** A common reply shape: prose without backticks, a fenced block whose
      text has none, then anything at all. The result is the block's text, minus a leading
      `sql\n` tag, stripped. */
  lemma ExtractFirstBlock(s: string, prefix: string, block: string, rest: string)
    requires s == prefix + "```" + block + "```" + rest
    requires forall k :: 0 <= k < |prefix| ==> prefix[k] != '`'
    requires forall k :: 0 <= k < |block| ==> block[k] != '`'
    ensures ExtractSql(s) == Strip(DropTag(block))
  {
    var o := |prefix|;
    var j := o + 3 + |block|;
    assert s[..o] == prefix && s[o..o + 3] == "```" && s[o + 3..j] == block && s[j..j + 3] == "```";
    assert FenceAt(s, o) && FenceAt(s, j);
    NoBacktickNoFence(s, 0, o);
    NoBacktickNoFence(s, o + 3, j);
    assert TagAt(s, o + 3) <==> TagAt(block, 0);
    FirstBlockWins(s, o, j);
    assert s[ContentStart(s, o)..j] == DropTag(block);
  }

  /** No fence starts on a stretch without backticks. */
  lemma NoBacktickNoFence(s: string, lo: nat, hi: nat)
    requires lo <= hi <= |s| && forall k :: 0 <= k < hi - lo ==> s[lo..hi][k] != '`'
    ensures forall k :: lo <= k < hi ==> !FenceAt(s, k)
  {
    forall k | lo <= k < hi ensures !FenceAt(s, k) {
      assert s[lo..hi][k - lo] == s[k];
    }
  }

  /** In the matched case the result holds no triple backtick: the group stops at the first
      one after its start, and stripping only takes a slice of the group. */
  lemma MatchedResultHasNoFence(s: string)
    requires SearchFrom(s, 0).Some?
    ensures !HasFence(ExtractSql(s))
  {
    var m := SearchFrom(s, 0).value;
    assert MatchAt(s, m.open) == Some(m);
    var g := s[m.start..m.stop];
    assert ExtractSql(s) == Strip(g);
    NoFenceInSlice(s, m.start, m.stop);
    assert forall k :: !FenceAt(g, k);
    StripIsSlice(g);
    NoFenceInSlice(g, StripOffset(g), StripOffset(g) + |Strip(g)|);
  }

  /** Extraction is idempotent: its result is trimmed, and it either holds no triple backtick
      (a match was found) or is a slice of an input that has no match (none was found). */
  lemma ExtractIdempotent(s: string)
    ensures ExtractSql(ExtractSql(s)) == ExtractSql(s)
  {
    var r := ExtractSql(s);
    if SearchFrom(s, 0).Some? {
      MatchedResultHasNoFence(s);
      NoFenceMeansStrip(r);
    } else {
      UnmatchedStaysUnclosed(s);
      UnclosedMeansStrip(r);
    }
    StripIdempotent(r);
  }

  /** When nothing matches, the stripped input has no closable fence either: it is a slice. */
  lemma UnmatchedStaysUnclosed(s: string)
    requires SearchFrom(s, 0).None?
    ensures forall o, j :: FenceAt(Strip(s), o) && FenceAt(Strip(s), j) ==> j < o + 3
  {
    StripIsSlice(s);
    var lo := StripOffset(s);
    var r := Strip(s);
    forall o, j | FenceAt(r, o) && FenceAt(r, j) ensures j < o + 3 {
      FenceInSlice(s, lo, lo + |r|, o);
      FenceInSlice(s, lo, lo + |r|, j);
      assert !Closable(s, lo + o);
    }
  }

  /** The text of a block tagged `sql`, with its statement on its own line, comes out of
      `DropTag` and `strip()` as that statement. */
  lemma TaggedLineStrips(stmt: string)
    requires Trimmed(stmt)
    ensures Strip(DropTag("sql\n" + stmt + "\n")) == stmt
  {
    var block := "sql\n" + stmt + "\n";
    var line := stmt + "\n";
    assert block == "sql\n" + line;
    assert TagAt(block, 0) && block[4..] == line;
    assert DropTag(block) == line;
    StripOuter(line, "", stmt, "\n");
  }

  /** ... and it holds no backtick when the statement holds none. */
  lemma TaggedLineHasNoBacktick(stmt: string)
    requires forall k :: 0 <= k < |stmt| ==> stmt[k] != '`'
    ensures forall k :: 0 <= k < |"sql\n" + stmt + "\n"| ==> ("sql\n" + stmt + "\n")[k] != '`'
  {
    var block := "sql\n" + stmt + "\n";
    forall k | 0 <= k < |block| ensures block[k] != '`' {
      if 4 <= k < 4 + |stmt| {
        assert block[k] == stmt[k - 4];
      }
    }
  }

  /** A block tagged `sql`, its statement on its own line: the statement comes out, whatever
      prose surrounds the block. */
  lemma TaggedStatement(s: string, prefix: string, stmt: string, suffix: string)
    requires s == prefix + "```" + ("sql\n" + stmt + "\n") + "```" + suffix
    requires forall k :: 0 <= k < |prefix| ==> prefix[k] != '`'
    requires forall k :: 0 <= k < |stmt| ==> stmt[k] != '`'
    requires Trimmed(stmt)
    ensures ExtractSql(s) == stmt
  {
    TaggedLineStrips(stmt);
    TaggedLineHasNoBacktick(stmt);
    ExtractFirstBlock(s, prefix, "sql\n" + stmt + "\n", suffix);
  }

  /** A block without the exact `sql\n` tag comes out whole, any other tag included. */
  lemma UntaggedStatement(s: string, prefix: string, block: string, suffix: string)
    requires s == prefix + "```" + block + "```" + suffix
    requires forall k :: 0 <= k < |prefix| ==> prefix[k] != '`'
    requires forall k :: 0 <= k < |block| ==> block[k] != '`'
    requires !TagAt(block, 0) && Trimmed(block)
    ensures ExtractSql(s) == block
  {
    ExtractFirstBlock(s, prefix, block, suffix);
    StripOuter(block, "", block, "");
  }

  /** Text without a fence is its statement, whitespace around it removed. */
  lemma UnfencedStatement(s: string, pre: string, stmt: string, post: string)
    requires s == pre + stmt + post
    requires forall k :: 0 <= k < |pre| ==> IsSpace(pre[k])
    requires forall k :: 0 <= k < |post| ==> IsSpace(post[k])
    requires forall k :: 0 <= k < |stmt| ==> stmt[k] != '`'
    requires Trimmed(stmt)
    ensures ExtractSql(s) == stmt
  {
    assert forall k :: 0 <= k < |s| ==> s[k] != '`' by {
      forall k | 0 <= k < |s| ensures s[k] != '`' {
        if k < |pre| {
          assert s[k] == pre[k];
        } else if k < |pre| + |stmt| {
          assert s[k] == stmt[k - |pre|];
        } else {
          assert s[k] == post[k - |pre| - |stmt|];
        }
      }
    }
    NoFenceMeansStrip(s);
    StripOuter(s, pre, stmt, post);
  }

  // ---- Examples ----

  /** A block tagged `sql` gives its statement. */
  lemma TaggedBlockExample()
    ensures ExtractSql("```sql\nSELECT 1\n```") == "SELECT 1"
  {
    TaggedStatement("```sql\nSELECT 1\n```", "", "SELECT 1", "");
  }

  /** An untagged block gives its statement. */
  lemma UntaggedBlockExample()
    ensures ExtractSql("```SELECT 1```") == "SELECT 1"
  {
    UntaggedStatement("```SELECT 1```", "", "SELECT 1", "");
  }

  /** Prose around the block is dropped. */
  lemma SurroundedBlockExample()
    ensures ExtractSql("prefix ```sql\nSELECT 1\n``` suffix") == "SELECT 1"
  {
    TaggedStatement("prefix ```sql\nSELECT 1\n``` suffix", "prefix ", "SELECT 1", " suffix");
  }

  /** Only the first of two blocks is taken. */
  lemma SecondBlockIgnoredExample()
    ensures ExtractSql("```SELECT 1``` and ```SELECT 2```") == "SELECT 1"
  {
    UntaggedStatement("```SELECT 1``` and ```SELECT 2```", "", "SELECT 1", " and ```SELECT 2```");
  }

  /** An upper-case tag is not the tag: it stays at the front of the result. */
  lemma UpperCaseTagKeptExample()
    ensures ExtractSql("```SQL\nX```") == "SQL\nX"
  {
    UntaggedStatement("```SQL\nX```", "", "SQL\nX", "");
  }

  /** A tag followed by a blank instead of a newline is kept. */
  lemma BlankAfterTagKeptExample()
    ensures ExtractSql("```sql X```") == "sql X"
  {
    UntaggedStatement("```sql X```", "", "sql X", "");
  }

  /** A tag followed by a carriage return and a newline is kept. */
  lemma CarriageReturnAfterTagKeptExample()
    ensures ExtractSql("```sql\r\nX```") == "sql\r\nX"
  {
    UntaggedStatement("```sql\r\nX```", "", "sql\r\nX", "");
  }

  /** Unfenced text is only stripped. */
  lemma UnfencedExample()
    ensures ExtractSql("  SELECT 1;\n") == "SELECT 1;"
  {
    UnfencedStatement("  SELECT 1;\n", "  ", "SELECT 1;", "\n");
  }
}
