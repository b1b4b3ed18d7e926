/**
 * The script highlighter (`ScriptTransformation`): a single left-to-right
 * pass over the tab-expanded script that keeps two flags, "inside a string
 * literal" and "inside a line comment", and gives every character a style.
 * Outside strings and comments, a maximal run of letters and digits is
 * looked up in the keyword list and coloured as one unit.
 *
 * The pass is a method over the class's cursor field `i`; it is proved
 * against a per-character reference: `ModeAt(t, k)`, the pair of flags
 * before character `k`, and `RefStyle(t, keywords, k)`, the style of
 * character `k`.
 */
module ScriptTransformation {
  import opened Wrappers
  import opened TextOps
  import opened VisualTransformation

  /** An entry of the keyword dictionary: a word and its colour string. */
  datatype Keyword = Keyword(word: string, color: string)

  /** The lexer's two flags. */
  datatype LexState = LexState(inString: bool, inComment: bool)

  /** Neither in a string nor in a comment. */
  predicate Plain(st: LexState) {
    !st.inString && !st.inComment
  }

  /** Two slashes start at position `k`. */
  predicate CommentStartsAt(t: string, k: nat)
    requires k < |t|
  {
    t[k] == '/' && k + 1 < |t| && t[k + 1] == '/'
  }

  /**
   * How character `k` changes the flags. The string flag changes only on a
   * quote outside a comment; the comment flag is raised only by two slashes
   * outside a string and lowered only by a newline; letters and digits
   * change nothing; and the two flags are never raised together.
   */
  function Next(t: string, k: nat, st: LexState): (r: LexState)
    requires k < |t|
    ensures !(st.inString && st.inComment) ==> !(r.inString && r.inComment)
    ensures r.inString != st.inString ==> t[k] == '"' && !st.inComment
    ensures r.inComment && !st.inComment ==> CommentStartsAt(t, k) && !st.inString
    ensures !r.inComment && st.inComment ==> t[k] == '\n'
    ensures IsLetterOrDigit(t[k]) ==> r == st
  {
    if t[k] == '"' && !st.inComment then st.(inString := !st.inString)
    else if CommentStartsAt(t, k) && !st.inString then st.(inComment := true)
    else if t[k] == '\n' then st.(inComment := false)
    else st
  }

  /** The flags before character `k`, starting from neither. */
  function ModeAt(t: string, k: nat): LexState
    requires k <= |t|
  {
    if k == 0 then LexState(false, false) else Next(t, k - 1, ModeAt(t, k - 1))
  }

  /** The end of the run of letters and digits that starts at or continues from `k`. */
  function RunEnd(t: string, k: nat): (r: nat)
    requires k <= |t|
    ensures k <= r <= |t|
    ensures forall q :: k <= q < r ==> IsLetterOrDigit(t[q])
    ensures r < |t| ==> !IsLetterOrDigit(t[r])
    decreases |t| - k
  {
    if k < |t| && IsLetterOrDigit(t[k]) then RunEnd(t, k + 1) else k
  }

  /** The start of the run of letters and digits that ends at or contains `k`. */
  function RunStart(t: string, k: nat): (r: nat)
    requires k <= |t|
    ensures r <= k
    ensures forall q :: r <= q < k ==> IsLetterOrDigit(t[q])
    ensures r > 0 ==> !IsLetterOrDigit(t[r - 1])
  {
    if k > 0 && IsLetterOrDigit(t[k - 1]) then RunStart(t, k - 1) else k
  }

  /** `keywords.find { it.word == word }`: the first keyword with that word. */
  function FindKeyword(keywords: seq<Keyword>, word: string): (r: Option<nat>)
    ensures r.None? ==> forall j :: 0 <= j < |keywords| ==> keywords[j].word != word
    ensures r.Some? ==> r.value < |keywords| && keywords[r.value].word == word
    ensures r.Some? ==> forall j :: 0 <= j < r.value ==> keywords[j].word != word
  {
    if keywords == [] then None
    else if keywords[0].word == word then Some(0)
    else match FindKeyword(keywords[1..], word)
      case None => None
      case Some(j) => Some(j + 1)
  }

  /** The colour of a word: its keyword's colour, or the default colour. */
  function WordStyle(keywords: seq<Keyword>, word: string): Style {
    var keyword := FindKeyword(keywords, word);
    if keyword.Some? then KeywordColor(keywords[keyword.value].color) else DefaultColor
  }

  /**
   * The style of a character that is not part of a word outside strings
   * and comments: a quote outside a comment is a string character, two
   * slashes outside a string are a comment character, a newline is
   * unstyled, and anything else takes the colour of the string, the
   * comment, or the default, in that order.
   */
  function CharStyle(t: string, k: nat, st: LexState): Style
    requires k < |t|
  {
    if t[k] == '"' && !st.inComment then StringColor
    else if CommentStartsAt(t, k) && !st.inString then CommentColor
    else if t[k] == '\n' then Unstyled
    else if st.inString then StringColor
    else if st.inComment then CommentColor
    else DefaultColor
  }

  /**
   * The style of character `k` of the transformed text `t`: a letter or
   * digit outside strings and comments takes the colour of the whole run
   * of letters and digits around it; any other character is styled on its
   * own. (A letter or digit is never a quote, a slash or a newline, so
   * testing for the word first agrees with the source's order of tests.)
   */
  function RefStyle(t: string, keywords: seq<Keyword>, k: nat): Style
    requires k < |t|
  {
    var st := ModeAt(t, k);
    if Plain(st) && IsLetterOrDigit(t[k]) then WordStyle(keywords, t[RunStart(t, k)..RunEnd(t, k)])
    else CharStyle(t, k, st)
  }

  /** The first `n` characters of `t`, each with its reference style. */
  function Reference(t: string, keywords: seq<Keyword>, n: nat): seq<Styled>
    requires n <= |t|
  {
    if n == 0 then [] else Reference(t, keywords, n - 1) + [Styled(t[n - 1], RefStyle(t, keywords, n - 1))]
  }

  /** The reference has one styled character per character of `t`'s prefix. */
  lemma {:induction false} ReferenceLength(t: string, keywords: seq<Keyword>, n: nat)
    requires n <= |t|
    ensures |Reference(t, keywords, n)| == n
  {
    if n > 0 {
      ReferenceLength(t, keywords, n - 1);
    }
  }

  /** Entry `k` of the reference is character `k` of `t` with its reference style. */
  lemma {:induction false} ReferenceIndex(t: string, keywords: seq<Keyword>, n: nat, k: nat)
    requires k < n <= |t|
    ensures |Reference(t, keywords, n)| == n
    ensures Reference(t, keywords, n)[k] == Styled(t[k], RefStyle(t, keywords, k))
  {
    ReferenceLength(t, keywords, n);
    if k < n - 1 {
      ReferenceIndex(t, keywords, n - 1, k);
    }
  }

  /**
   * The highlighted script: every character of the tab-expanded text, in
   * order, with its reference style.
   */
  function Highlighted(text: string, keywords: seq<Keyword>): seq<Styled> {
    var t := ExpandTabs(text);
    Reference(t, keywords, |t|)
  }

  /**
   * The highlighted script shows exactly the tab-expanded text, and each of
   * its characters carries the style the lexer gives it.
   */
  lemma HighlightedStyles(text: string, keywords: seq<Keyword>)
    ensures Chars(Highlighted(text, keywords)) == ExpandTabs(text)
    ensures forall k :: 0 <= k < |ExpandTabs(text)| ==>
      Highlighted(text, keywords)[k].style == RefStyle(ExpandTabs(text), keywords, k)
  {
    var t := ExpandTabs(text);
    var r := Highlighted(text, keywords);
    ReferenceLength(t, keywords, |t|);
    forall k | 0 <= k < |t|
      ensures r[k] == Styled(t[k], RefStyle(t, keywords, k))
    {
      ReferenceIndex(t, keywords, |t|, k);
    }
  }

  /** The highlighter's state: the keyword list and the scanning cursor. */
  class ScriptTransformation {
    var keywords: seq<Keyword>
    /** The cursor `i` the class inherits from `CustomVisualTransformation`. */
    var i: int

    constructor ()
      ensures keywords == [] && i == 0
    {
      keywords := [];
      i := 0;
    }

    /**
     * `loadKeywordsFromJson`, with reading and decoding the file left to the
     * caller: the list is cleared and refilled with the loaded keywords.
     */
    method LoadKeywordsFromJson(loadedKeywords: seq<Keyword>)
      modifies this`keywords
      ensures keywords == loadedKeywords
    {
      keywords := [];
      keywords := keywords + loadedKeywords;
    }

    /**
     * `highlight`: expands tabs, then styles every character of the
     * expanded text exactly once, in order, as `RefStyle` says; the mapping
     * is the one built from the expansion.
     */
    method Highlight(text: string) returns (annotated: seq<Styled>, mapping: OffsetMapping)
      modifies this`i
      ensures annotated == Highlighted(text, keywords)
      ensures mapping == Table(ExpansionMap(text), |text|)
      ensures i == |ExpandTabs(text)|
    {
      var inString := false;
      var inComment := false;
      var transformed, offsetMapToOriginal := ReplaceTabsWithSpaces(text);
      annotated := [];
      var pos := 0;
      while pos < |transformed|
        invariant Scanned(transformed, keywords, pos, annotated, LexState(inString, inComment))
        decreases |transformed| - pos
      {
        var c := transformed[pos];
        ghost var before := LexState(inString, inComment);
        if c == '"' && !inComment {
          inString := !inString;
          CharStep(transformed, keywords, pos, annotated, before, LexState(inString, inComment), StringColor);
          annotated := annotated + Paint([c], StringColor);
          pos := pos + 1;
        } else if c == '/' && pos + 1 < |transformed| && transformed[pos + 1] == '/' && !inString {
          inComment := true;
          CharStep(transformed, keywords, pos, annotated, before, LexState(inString, inComment), CommentColor);
          annotated := annotated + Paint([c], CommentColor);
          pos := pos + 1;
        } else if c == '\n' {
          inComment := false;
          CharStep(transformed, keywords, pos, annotated, before, LexState(inString, inComment), Unstyled);
          annotated := annotated + Paint([c], Unstyled);
          pos := pos + 1;
        } else if !inString && !inComment && IsLetterOrDigit(c) {
          assert LexState(inString, inComment) == LexState(false, false);
          annotated, pos := HighlightWord(text, transformed, offsetMapToOriginal, annotated, pos);
        } else {
          var color := if inString then StringColor else if inComment then CommentColor else DefaultColor;
          CharStep(transformed, keywords, pos, annotated, before, LexState(inString, inComment), color);
          annotated := annotated + Paint([c], color);
          pos := pos + 1;
        }
      }
      i := pos;
      mapping := Table(offsetMapToOriginal, |text|);
    }

    /**
     * The word branch of `highlight`: from `start` the cursor runs to the
     * end of the run of letters and digits, which it returns; the word is
     * looked up by its text in the original script and appended in its
     * keyword's colour or the default colour. The flags are unchanged.
     */
    method HighlightWord(text: string, transformed: string, offsetMapToOriginal: seq<int>,
                         annotated: seq<Styled>, start: nat) returns (extended: seq<Styled>, end: nat)
      requires transformed == ExpandTabs(text) && offsetMapToOriginal == ExpansionMap(text)
      requires start < |transformed| && IsLetterOrDigit(transformed[start])
      requires Scanned(transformed, keywords, start, annotated, LexState(false, false))
      ensures start < end <= |transformed| && end == RunEnd(transformed, start)
      ensures Scanned(transformed, keywords, end, extended, LexState(false, false))
    {
      end := start;
      while end < |transformed| && IsLetterOrDigit(transformed[end])
        invariant start <= end <= |transformed|
        invariant forall q :: start <= q < end ==> IsLetterOrDigit(transformed[q])
        invariant RunEnd(transformed, end) == RunEnd(transformed, start)
        decreases |transformed| - end
      {
        end := end + 1;
      }
      var word := transformed[start..end];
      var originalStart := offsetMapToOriginal[start];
      OriginalWordMatches(text, start, end);
      var originalWord := text[originalStart..originalStart + Min(|word|, |text| - originalStart)];
      CutWord(text, originalStart, word, originalWord);
      var keyword := FindKeyword(keywords, originalWord);
      var color := if keyword.Some? then KeywordColor(keywords[keyword.value].color) else DefaultColor;
      WordStep(transformed, keywords, start, end, annotated);
      extended := annotated + Paint(word, color);
    }
  }

  /**
   * What `Highlight` knows after the first `pos` characters of `t`: they
   * are styled as the reference says, `st` holds the flags before the next
   * character, and `pos` does not fall inside a word that began outside
   * strings and comments.
   */
  ghost predicate Scanned(t: string, keywords: seq<Keyword>, pos: nat, annotated: seq<Styled>, st: LexState) {
    && pos <= |t|
    && annotated == Reference(t, keywords, pos)
    && st == ModeAt(t, pos)
    && ((0 < pos < |t| && IsLetterOrDigit(t[pos - 1]) && IsLetterOrDigit(t[pos])) ==> !Plain(st))
  }

  /**
   * One step of `Highlight` on a character that does not start a word: the
   * reference grows by that character in its own style, and the flags
   * after it are the lexer's next flags.
   */
  lemma CharStep(t: string, keywords: seq<Keyword>, i: nat, annotated: seq<Styled>,
                 st: LexState, after: LexState, color: Style)
    requires i < |t| && Scanned(t, keywords, i, annotated, st)
    requires !(Plain(st) && IsLetterOrDigit(t[i]))
    requires after == Next(t, i, st) && color == CharStyle(t, i, st)
    ensures Scanned(t, keywords, i + 1, annotated + Paint([t[i]], color), after)
  {
    assert Paint([t[i]], color) == [Styled(t[i], color)];
  }

  /**
   * One step of `Highlight` on a word: a maximal run of letters and digits
   * met outside strings and comments is painted in its word's colour, and
   * leaves the flags as they were.
   */
  lemma WordStep(t: string, keywords: seq<Keyword>, start: nat, end: nat, annotated: seq<Styled>)
    requires start < |t| && IsLetterOrDigit(t[start]) && end == RunEnd(t, start)
    requires Scanned(t, keywords, start, annotated, LexState(false, false))
    ensures start < end
    ensures Scanned(t, keywords, end, annotated + Paint(t[start..end], WordStyle(keywords, t[start..end])),
                    LexState(false, false))
  {
    var color := WordStyle(keywords, t[start..end]);
    forall k | start <= k < end
      ensures RefStyle(t, keywords, k) == color
    {
      WordRunStyle(t, keywords, start, end, k);
    }
    ReferenceExtend(t, keywords, start, end, color);
    ModeAcrossRun(t, start, end);
  }

  /** Styling the next characters alike extends the reference by them, painted. */
  lemma {:induction false} ReferenceExtend(t: string, keywords: seq<Keyword>, lo: nat, hi: nat, color: Style)
    requires lo <= hi <= |t|
    requires forall k :: lo <= k < hi ==> RefStyle(t, keywords, k) == color
    ensures Reference(t, keywords, hi) == Reference(t, keywords, lo) + Paint(t[lo..hi], color)
    decreases hi - lo
  {
    if lo < hi {
      ReferenceExtend(t, keywords, lo, hi - 1, color);
      assert t[lo..hi] == t[lo..hi - 1] + [t[hi - 1]];
      PaintSnoc(t[lo..hi - 1], t[hi - 1], color);
    } else {
      assert Paint(t[lo..hi], color) == [];
    }
  }

  /** Painting one more character appends it, painted. */
  lemma PaintSnoc(s: string, c: char, color: Style)
    ensures Paint(s + [c], color) == Paint(s, color) + [Styled(c, color)]
  {
  }

  /**
   * One step of the lexer on a character that is not the start of a word:
   * a quote outside a comment flips the string flag and is a string
   * character; two slashes outside a string raise the comment flag and are
   * a comment character; a newline lowers the comment flag, keeps the string
   * flag and is unstyled; any other character keeps the flags and takes the
   * colour of the string, the comment, or the default, in that order.
   */
  lemma LexerStep(t: string, keywords: seq<Keyword>, k: nat)
    requires k < |t|
    ensures var st, c := ModeAt(t, k), t[k];
      && (c == '"' && !st.inComment ==>
            ModeAt(t, k + 1) == st.(inString := !st.inString) && RefStyle(t, keywords, k) == StringColor)
      && (c == '/' && k + 1 < |t| && t[k + 1] == '/' && !st.inString ==>
            ModeAt(t, k + 1) == st.(inComment := true) && RefStyle(t, keywords, k) == CommentColor)
      && (c == '\n' ==>
            ModeAt(t, k + 1) == LexState(st.inString, false) && RefStyle(t, keywords, k) == Unstyled)
      && (c != '"' && c != '/' && c != '\n' && !(Plain(st) && IsLetterOrDigit(c)) ==>
            ModeAt(t, k + 1) == st &&
            RefStyle(t, keywords, k) == (if st.inString then StringColor
                                        else if st.inComment then CommentColor else DefaultColor))
      && ((c == '"' && st.inComment) || (c == '/' && !CommentStartsAt(t, k)) || (c == '/' && st.inString) ==>
            ModeAt(t, k + 1) == st &&
            RefStyle(t, keywords, k) == (if st.inString then StringColor
                                        else if st.inComment then CommentColor else DefaultColor))
  {
    ModeExclusive(t, k);
  }

  /** `coerceAtMost`. */
  function Min(a: int, b: int): int {
    if a <= b then a else b
  }

  /**
   * Cutting `Min(|word|, |s| - j)` characters of `s` from `j` gives back
   * `word` when `word` already sits in `s` at `j`.
   */
  lemma CutWord(s: string, j: nat, word: string, originalWord: string)
    requires j + |word| <= |s| && s[j..j + |word|] == word
    requires originalWord == s[j..j + Min(|word|, |s| - j)]
    ensures originalWord == word
  {
    assert j + Min(|word|, |s| - j) == j + |word|;
  }

  /**
   * The word looked up is cut from the original text, starting where the
   * map says the transformed word starts: a run of letters and digits holds
   * no tab, so that original slice is exactly the transformed word.
   */
  lemma {:induction false} OriginalWordMatches(s: string, start: nat, end: nat)
    requires start < end <= |ExpandTabs(s)|
    requires forall p :: start <= p < end ==> IsLetterOrDigit(ExpandTabs(s)[p])
    ensures var j := ExpansionMap(s)[start];
      0 <= j && j + (end - start) <= |s| && s[j..j + (end - start)] == ExpandTabs(s)[start..end]
    decreases end - start
  {
    var t, m := ExpandTabs(s), ExpansionMap(s);
    var j, n := m[start], end - start;
    ExpansionAt(s, start);
    if n > 1 {
      OriginalWordMatches(s, start + 1, end);
      assert m[start + 1] == j + 1;
      forall q | 0 <= q < n ensures s[j..j + n][q] == t[start..end][q] {
        if q > 0 {
          assert s[j..j + n][q] == s[j + 1..j + n][q - 1];
          assert t[start..end][q] == t[start + 1..end][q - 1];
        }
      }
    }
  }

  /** Letters and digits leave the flags alone, so a whole run sees one mode. */
  lemma {:induction false} ModeAcrossRun(t: string, start: nat, k: nat)
    requires start <= k <= |t|
    requires forall q :: start <= q < k ==> IsLetterOrDigit(t[q])
    ensures ModeAt(t, k) == ModeAt(t, start)
    decreases k - start
  {
    if k > start {
      ModeAcrossRun(t, start, k - 1);
    }
  }

  /** Inside a run that starts at `start`, every position's run starts there. */
  lemma {:induction false} RunStartWithin(t: string, start: nat, k: nat)
    requires start <= k <= |t|
    requires start == 0 || !IsLetterOrDigit(t[start - 1])
    requires forall q :: start <= q < k ==> IsLetterOrDigit(t[q])
    ensures RunStart(t, k) == start
    decreases k - start
  {
    if k > start {
      RunStartWithin(t, start, k - 1);
    }
  }

  /** Inside a run, every position's run ends where the run's first position's does. */
  lemma {:induction false} RunEndWithin(t: string, start: nat, k: nat)
    requires start <= k <= |t|
    requires forall q :: start <= q < k ==> IsLetterOrDigit(t[q])
    ensures RunEnd(t, k) == RunEnd(t, start)
    decreases k - start
  {
    if k > start {
      RunEndWithin(t, start, k - 1);
    }
  }

  /**
   * A maximal run of letters and digits that begins outside strings and
   * comments is styled as one unit, with the colour of its word.
   */
  lemma WordRunStyle(t: string, keywords: seq<Keyword>, start: nat, end: nat, k: nat)
    requires start <= k < end <= |t|
    requires start == 0 || !IsLetterOrDigit(t[start - 1])
    requires end == |t| || !IsLetterOrDigit(t[end])
    requires forall q :: start <= q < end ==> IsLetterOrDigit(t[q])
    requires Plain(ModeAt(t, start))
    ensures RefStyle(t, keywords, k) == WordStyle(keywords, t[start..end])
  {
    ModeAcrossRun(t, start, k);
    RunStartWithin(t, start, k);
    RunEndWithin(t, start, k);
    RunEndWithin(t, start, end);
  }

  /** The two flags are never both set. */
  lemma {:induction false} ModeExclusive(t: string, k: nat)
    requires k <= |t|
    ensures !(ModeAt(t, k).inString && ModeAt(t, k).inComment)
  {
    if k > 0 {
      ModeExclusive(t, k - 1);
    }
  }
}
