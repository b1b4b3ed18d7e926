/**
 * The shared base of the two highlighters (`CustomVisualTransformation`):
 * styled text, the offset mapping between the text the user edited
 * ("original") and the text that is displayed ("transformed"), and tab
 * expansion, which turns each tab into four spaces and records, for every
 * transformed character, the index of the original character it came from.
 */
module VisualTransformation {

  /** The style a highlighter gives a character (colours are abstract tags). */
  datatype Style =
    | Unstyled                 // appended outside any `withStyle`
    | DefaultColor             // the theme's text colour
    | StringColor
    | CommentColor
    | KeywordColor(color: string)  // the keyword's colour string, as loaded
    | ErrorUnderlined          // error colour with underline (output pane)

  /** One character of an annotated string, with its style. */
  datatype Styled = Styled(ch: char, style: Style)

  /** The plain text of an annotated string. */
  function Chars(s: seq<Styled>): (r: string)
    ensures |r| == |s|
    ensures forall k {:trigger r[k]} :: 0 <= k < |s| ==> r[k] == s[k].ch
  {
    seq(|s|, k requires 0 <= k < |s| => s[k].ch)
  }

  /** `withStyle(style) { append(s) }`: every character of `s` with that style. */
  function Paint(s: string, style: Style): (r: seq<Styled>)
    ensures |r| == |s|
    ensures forall k {:trigger r[k]} :: 0 <= k < |s| ==> r[k] == Styled(s[k], style)
  {
    seq(|s|, k requires 0 <= k < |s| => Styled(s[k], style))
  }

  /**
   * An `OffsetMapping`: Compose's identity mapping, or the mapping built by
   * `createOffsetMapping` from a per-transformed-character table of original
   * indices and the original text's length.
   */
  datatype OffsetMapping =
    | Identity
    | Table(toOriginal: seq<int>, textLength: int)

  /**
   * `indexOfFirst { it >= offset }`, with the size of the table standing in
   * for "not found".
   */
  function FirstAtLeast(entries: seq<int>, offset: int): (r: nat)
    ensures r <= |entries|
    ensures forall j :: 0 <= j < r ==> entries[j] < offset
    ensures r < |entries| ==> entries[r] >= offset
  {
    if entries == [] then 0
    else if entries[0] >= offset then 0
    else 1 + FirstAtLeast(entries[1..], offset)
  }

  /**
   * `originalToTransformed`: 0 for an empty table, else the index of the
   * first entry at or past `offset`, or the table's size when there is none.
   */
  function OriginalToTransformed(m: OffsetMapping, offset: int): (r: int)
    ensures m.Identity? ==> r == offset
    ensures m.Table? ==> 0 <= r <= |m.toOriginal|
    ensures m.Table? && m.toOriginal == [] ==> r == 0
    ensures m.Table? ==> forall j :: 0 <= j < r ==> m.toOriginal[j] < offset
    ensures m.Table? && r < |m.toOriginal| ==> m.toOriginal[r] >= offset
  {
    match m
    case Identity => offset
    case Table(entries, _) => if entries == [] then 0 else FirstAtLeast(entries, offset)
  }

  /**
   * `transformedToOriginal`: 0 for an empty table, a direct lookup inside it,
   * and the original text's length past its end. A negative offset into a
   * non-empty table would make the lookup throw; callers never pass one.
   */
  function TransformedToOriginal(m: OffsetMapping, offset: int): (r: int)
    requires m.Table? && m.toOriginal != [] ==> 0 <= offset
    ensures m.Identity? ==> r == offset
    ensures m.Table? && m.toOriginal == [] ==> r == 0
    ensures m.Table? && 0 <= offset < |m.toOriginal| ==> r == m.toOriginal[offset]
    ensures m.Table? && m.toOriginal != [] && offset >= |m.toOriginal| ==> r == m.textLength
    ensures m.Table? && 0 <= m.textLength && (forall j :: 0 <= j < |m.toOriginal| ==> 0 <= m.toOriginal[j] <= m.textLength)
            ==> 0 <= r <= m.textLength
  {
    match m
    case Identity => offset
    case Table(entries, textLength) =>
      if entries == [] then 0
      else if offset < |entries| then entries[offset]
      else textLength
  }

  /**
   * The default `highlight`: the text unchanged, with the identity mapping,
   * which answers every query with the offset it was given.
   */
  function DefaultHighlight(text: string): (r: (seq<Styled>, OffsetMapping))
    ensures Chars(r.0) == text
    ensures r.1.Identity?
    ensures forall k :: OriginalToTransformed(r.1, k) == k
    ensures forall k :: TransformedToOriginal(r.1, k) == k
  {
    (Paint(text, Unstyled), Identity)
  }

  // ---------------------------------------------------------------------
  // Tab expansion (`replaceTabsWithSpaces`)
  // ---------------------------------------------------------------------

  /** What one original character becomes on screen: four spaces for a tab. */
  function Piece(c: char): string {
    if c == '\t' then "    " else [c]
  }

  /** The map entries of one original character at index `i`: one per piece character. */
  function PieceMap(c: char, i: int): seq<int> {
    if c == '\t' then [i, i, i, i] else [i]
  }

  /** The number of tabs among the first `n` characters of `s`. */
  function TabsBefore(s: string, n: nat): nat
    requires n <= |s|
  {
    if n == 0 then 0 else TabsBefore(s, n - 1) + (if s[n - 1] == '\t' then 1 else 0)
  }

  /**
   * The transformed text of the first `n` characters: their pieces, in
   * order. It is longer by three characters for every tab.
   */
  function ExpandPrefix(s: string, n: nat): (r: string)
    requires n <= |s|
    ensures |r| == n + 3 * TabsBefore(s, n)
  {
    if n == 0 then [] else ExpandPrefix(s, n - 1) + Piece(s[n - 1])
  }

  /** The offset map of the first `n` characters, built alongside `ExpandPrefix`. */
  function MapPrefix(s: string, n: nat): (r: seq<int>)
    requires n <= |s|
    ensures |r| == n + 3 * TabsBefore(s, n)
  {
    if n == 0 then [] else MapPrefix(s, n - 1) + PieceMap(s[n - 1], n - 1)
  }

  /** The transformed text of the whole of `s`. */
  function ExpandTabs(s: string): string {
    ExpandPrefix(s, |s|)
  }

  /** The offset map of the whole of `s`: one original index per transformed character. */
  function ExpansionMap(s: string): seq<int> {
    MapPrefix(s, |s|)
  }

  /**
   * `replaceTabsWithSpaces`: a loop over the original text appending to a
   * builder and to the offset list.
   */
  method ReplaceTabsWithSpaces(text: string) returns (transformed: string, offsetMapToOriginal: seq<int>)
    ensures transformed == ExpandTabs(text)
    ensures offsetMapToOriginal == ExpansionMap(text)
  {
    transformed, offsetMapToOriginal := [], [];
    var i := 0;
    while i < |text|
      invariant 0 <= i <= |text|
      invariant transformed == ExpandPrefix(text, i)
      invariant offsetMapToOriginal == MapPrefix(text, i)
    {
      var c := text[i];
      if c == '\t' {
        var n := 0;
        while n < 4
          invariant 0 <= n <= 4
          invariant transformed == ExpandPrefix(text, i) + Piece(c)[..n]
          invariant offsetMapToOriginal == MapPrefix(text, i) + PieceMap(c, i)[..n]
        {
          TabStep(ExpandPrefix(text, i), MapPrefix(text, i), i, n);
          transformed := transformed + [' '];
          offsetMapToOriginal := offsetMapToOriginal + [i];
          n := n + 1;
        }
      } else {
        transformed := transformed + [c];
        offsetMapToOriginal := offsetMapToOriginal + [i];
      }
      i := i + 1;
    }
  }

  /** One more space of a tab's piece, and one more map entry for it. */
  lemma TabStep(done: string, doneMap: seq<int>, i: int, n: nat)
    requires n < 4
    ensures done + Piece('\t')[..n] + [' '] == done + Piece('\t')[..n + 1]
    ensures doneMap + PieceMap('\t', i)[..n] + [i] == doneMap + PieceMap('\t', i)[..n + 1]
    ensures n + 1 == 4 ==> Piece('\t')[..n + 1] == Piece('\t') && PieceMap('\t', i)[..n + 1] == PieceMap('\t', i)
  {
    assert Piece('\t')[..n + 1] == Piece('\t')[..n] + [' '];
    assert PieceMap('\t', i)[..n + 1] == PieceMap('\t', i)[..n] + [i];
  }

  /** Every map entry is an index of the original text. */
  lemma {:induction false} MapPrefixBounds(s: string, n: nat)
    requires n <= |s|
    ensures forall p :: 0 <= p < |MapPrefix(s, n)| ==> 0 <= MapPrefix(s, n)[p] < n
  {
    if n > 0 {
      MapPrefixBounds(s, n - 1);
    }
  }

  /** The map never goes backwards. */
  lemma {:induction false} MapPrefixMonotone(s: string, n: nat)
    requires n <= |s|
    ensures forall a, b :: 0 <= a <= b < |MapPrefix(s, n)| ==> MapPrefix(s, n)[a] <= MapPrefix(s, n)[b]
  {
    if n > 0 {
      MapPrefixMonotone(s, n - 1);
      MapPrefixBounds(s, n - 1);
    }
  }

  /** The whole map stays within the original text and never goes backwards. */
  lemma ExpansionMapShape(s: string)
    ensures forall p :: 0 <= p < |ExpansionMap(s)| ==> 0 <= ExpansionMap(s)[p] < |s|
    ensures forall a, b :: 0 <= a <= b < |ExpansionMap(s)| ==> ExpansionMap(s)[a] <= ExpansionMap(s)[b]
  {
    MapPrefixBounds(s, |s|);
    MapPrefixMonotone(s, |s|);
  }

  /** Expanding fewer characters gives a prefix of the expansion and of its map. */
  lemma {:induction false} PrefixExpansion(s: string, j: nat, n: nat)
    requires j <= n <= |s|
    ensures |ExpandPrefix(s, j)| <= |ExpandPrefix(s, n)|
    ensures ExpandPrefix(s, n)[..|ExpandPrefix(s, j)|] == ExpandPrefix(s, j)
    ensures MapPrefix(s, n)[..|ExpandPrefix(s, j)|] == MapPrefix(s, j)
    decreases n - j
  {
    if j < n {
      PrefixExpansion(s, j, n - 1);
      var k := |ExpandPrefix(s, j)|;
      PrefixOfPrefix(ExpandPrefix(s, n), ExpandPrefix(s, n - 1), k);
      PrefixOfPrefix(MapPrefix(s, n), MapPrefix(s, n - 1), k);
    }
  }

  /** A prefix of a prefix is a prefix of the whole. */
  lemma PrefixOfPrefix<T>(whole: seq<T>, prefix: seq<T>, n: nat)
    requires |prefix| <= |whole| && whole[..|prefix|] == prefix
    requires n <= |prefix|
    ensures whole[..n] == prefix[..n]
  {
    assert whole[..n] == whole[..|prefix|][..n];
  }

  /** The slice after `a` in a prefix `ab == a + b` of `whole` is `b`. */
  lemma SliceAfter<T>(whole: seq<T>, a: seq<T>, b: seq<T>, ab: seq<T>)
    requires ab == a + b
    requires |ab| <= |whole| && whole[..|ab|] == ab
    ensures |a| + |b| <= |whole| && whole[|a|..|a| + |b|] == b
  {
    assert whole[|a|..|a| + |b|] == whole[..|ab|][|a|..];
  }

  /**
   * Character `j` of the original text becomes, at transformed position
   * `j + 3 * TabsBefore(s, j)`, four spaces that all map back to `j` if it
   * is a tab, and otherwise itself, mapped back to `j`.
   */
  lemma ExpansionOfChar(s: string, j: nat)
    requires j < |s|
    ensures var p := |ExpandPrefix(s, j)|;
      && p == j + 3 * TabsBefore(s, j)
      && p + |Piece(s[j])| <= |ExpandTabs(s)|
      && ExpandTabs(s)[p..p + |Piece(s[j])|] == Piece(s[j])
      && ExpansionMap(s)[p..p + |Piece(s[j])|] == PieceMap(s[j], j)
  {
    PieceAt(s, j);
    PieceMapAt(s, j);
    assert |MapPrefix(s, j)| == |ExpandPrefix(s, j)|;
    assert |PieceMap(s[j], j)| == |Piece(s[j])|;
  }

  /** The piece of character `j` follows the expansion of the characters before it. */
  lemma PieceAt(s: string, j: nat)
    requires j < |s|
    ensures var p := |ExpandPrefix(s, j)|;
      p + |Piece(s[j])| <= |ExpandTabs(s)| && ExpandTabs(s)[p..p + |Piece(s[j])|] == Piece(s[j])
  {
    var whole, a, b, ab := ExpandPrefix(s, |s|), ExpandPrefix(s, j), Piece(s[j]), ExpandPrefix(s, j + 1);
    assert ab == a + b;
    PrefixExpansion(s, j + 1, |s|);
    assert |ab| <= |whole| && whole[..|ab|] == ab;
    SliceAfter(whole, a, b, ab);
  }

  /** The map entries of character `j` follow those of the characters before it. */
  lemma PieceMapAt(s: string, j: nat)
    requires j < |s|
    ensures var p, n := |MapPrefix(s, j)|, |PieceMap(s[j], j)|;
      p + n <= |ExpansionMap(s)| && ExpansionMap(s)[p..p + n] == PieceMap(s[j], j)
  {
    var whole, a, b, ab := MapPrefix(s, |s|), MapPrefix(s, j), PieceMap(s[j], j), MapPrefix(s, j + 1);
    assert ab == a + b;
    PrefixExpansion(s, j + 1, |s|);
    assert |ab| <= |whole| && whole[..|ab|] == ab;
    SliceAfter(whole, a, b, ab);
  }

  /**
   * Local shape of the expansion at a transformed position `p`: it maps to
   * an original index `j`; a tab shows as a space, any other character as
   * itself, and the next transformed position then maps to `j + 1`.
   */
  lemma {:induction false} ExpansionAtPrefix(s: string, n: nat, p: nat)
    requires n <= |s| && p < |ExpandPrefix(s, n)|
    ensures var j := MapPrefix(s, n)[p];
      && 0 <= j < n
      && (s[j] == '\t' ==> ExpandPrefix(s, n)[p] == ' ')
      && (s[j] != '\t' ==> ExpandPrefix(s, n)[p] == s[j])
      && (s[j] != '\t' && p + 1 < |ExpandPrefix(s, n)| ==> MapPrefix(s, n)[p + 1] == j + 1)
  {
    var before := ExpandPrefix(s, n - 1);
    if p < |before| {
      ExpansionAtPrefix(s, n - 1, p);
      if p + 1 == |before| {
        LastEntry(s, n - 1);
      }
    }
  }

  /** The local shape of the expansion of the whole text. */
  lemma ExpansionAt(s: string, p: nat)
    requires p < |ExpandTabs(s)|
    ensures var j := ExpansionMap(s)[p];
      && 0 <= j < |s|
      && (s[j] == '\t' ==> ExpandTabs(s)[p] == ' ')
      && (s[j] != '\t' ==> ExpandTabs(s)[p] == s[j])
      && (s[j] != '\t' && p + 1 < |ExpandTabs(s)| ==> ExpansionMap(s)[p + 1] == j + 1)
  {
    ExpansionAtPrefix(s, |s|, p);
  }

  /** The last entry of a non-empty map is the last character expanded. */
  lemma LastEntry(s: string, n: nat)
    requires 0 < n <= |s|
    ensures MapPrefix(s, n)[|MapPrefix(s, n)| - 1] == n - 1
  {
  }

  /** A text without tabs is displayed unchanged, and its map is the identity. */
  lemma {:induction false} TabFreePrefix(s: string, n: nat)
    requires n <= |s| && '\t' !in s
    ensures ExpandPrefix(s, n) == s[..n]
    ensures forall p :: 0 <= p < n ==> MapPrefix(s, n)[p] == p
  {
    if n > 0 {
      TabFreePrefix(s, n - 1);
      assert s[..n] == s[..n - 1] + [s[n - 1]];
    }
  }

  /** A text without tabs is displayed unchanged, and its map is the identity. */
  lemma TabFreeExpansion(s: string)
    requires '\t' !in s
    ensures ExpandTabs(s) == s
    ensures |ExpansionMap(s)| == |s|
    ensures forall p :: 0 <= p < |s| ==> ExpansionMap(s)[p] == p
  {
    TabFreePrefix(s, |s|);
    assert s[..|s|] == s;
  }

  /**
   * The first transformed position of character `j`'s piece is the first
   * map entry at or past `j`.
   */
  lemma FirstPositionOf(s: string, j: nat)
    requires j < |s|
    ensures |ExpandPrefix(s, j)| < |ExpansionMap(s)|
    ensures ExpansionMap(s)[|ExpandPrefix(s, j)|] == j
    ensures forall q :: 0 <= q < |ExpandPrefix(s, j)| ==> ExpansionMap(s)[q] < j
    ensures FirstAtLeast(ExpansionMap(s), j) == |ExpandPrefix(s, j)|
  {
    var entries := ExpansionMap(s);
    var p := |ExpandPrefix(s, j)|;
    PieceStartEntry(s, j);
    EntriesBefore(s, j);
    var r := FirstAtLeast(entries, j);
    assert r <= p;
    assert r >= p;
  }

  /** The first map entry of character `j`'s piece is `j`. */
  lemma PieceStartEntry(s: string, j: nat)
    requires j < |s|
    ensures |ExpandPrefix(s, j)| < |ExpansionMap(s)|
    ensures ExpansionMap(s)[|ExpandPrefix(s, j)|] == j
  {
    var p := |ExpandPrefix(s, j)|;
    ExpansionOfChar(s, j);
    assert ExpansionMap(s)[p..p + |Piece(s[j])|][0] == ExpansionMap(s)[p];
  }

  /** Every map entry before character `j`'s piece is an earlier character. */
  lemma EntriesBefore(s: string, j: nat)
    requires j < |s|
    ensures |ExpandPrefix(s, j)| <= |ExpansionMap(s)|
    ensures forall q :: 0 <= q < |ExpandPrefix(s, j)| ==> ExpansionMap(s)[q] < j
  {
    var p := |ExpandPrefix(s, j)|;
    PrefixExpansion(s, j, |s|);
    MapPrefixBounds(s, j);
    forall q | 0 <= q < p ensures ExpansionMap(s)[q] < j {
      assert ExpansionMap(s)[..p][q] == ExpansionMap(s)[q];
    }
  }

  /**
   * The mapping built from the expansion takes every original offset
   * `0 <= k <= |s|` to a transformed offset that maps straight back to `k`
   * (for an original character: the first position of its piece).
   */
  lemma ExpansionRoundTrip(s: string, k: int)
    requires 0 <= k <= |s|
    ensures var m := Table(ExpansionMap(s), |s|);
      && 0 <= OriginalToTransformed(m, k) <= |ExpansionMap(s)|
      && TransformedToOriginal(m, OriginalToTransformed(m, k)) == k
  {
    if k < |s| {
      FirstPositionOf(s, k);
    } else if s != [] {
      MapPrefixBounds(s, |s|);
      assert FirstAtLeast(ExpansionMap(s), k) == |ExpansionMap(s)|;
    }
  }

  /**
   * Going from a transformed offset to the original and back lands at or
   * before where one started: on the first of the (up to four) positions
   * that share the same original character.
   */
  lemma ExpansionBackAndForth(s: string, t: nat)
    requires t < |ExpansionMap(s)|
    ensures var m := Table(ExpansionMap(s), |s|);
      var back := OriginalToTransformed(m, TransformedToOriginal(m, t));
      && 0 <= ExpansionMap(s)[t] < |s|
      && back == |ExpandPrefix(s, ExpansionMap(s)[t])|
      && back <= t
      && ExpansionMap(s)[back] == ExpansionMap(s)[t]
  {
    MapPrefixBounds(s, |s|);
    FirstPositionOf(s, ExpansionMap(s)[t]);
  }
}
