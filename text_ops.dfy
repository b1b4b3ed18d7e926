/**
 * The pieces of the Kotlin standard library that the editor's text code
 * relies on: `Char.isLetterOrDigit`, `String.startsWith`, `String.contains`,
 * `String.lines()`, `List.take(k).sumOf { it.length + 1 }` and
 * `Int.toString()`.
 */
module TextOps {

  /** `Char.isLetterOrDigit`, restricted to ASCII letters and digits. */
  predicate IsLetterOrDigit(c: char) {
    ('a' <= c <= 'z') || ('A' <= c <= 'Z') || ('0' <= c <= '9')
  }

  /** `String.startsWith(prefix)`. */
  predicate StartsWith(s: string, prefix: string) {
    |prefix| <= |s| && s[..|prefix|] == prefix
  }

  /** `String.contains(other)`: `other` occurs somewhere inside `s`. */
  predicate Contains(s: string, other: string) {
    exists i :: 0 <= i <= |s| - |other| && OccursAt(s, other, i)
  }

  /** `other` occurs in `s` starting at index `i`. */
  predicate OccursAt(s: string, other: string, i: int)
    requires 0 <= i <= |s| - |other|
  {
    s[i..i + |other|] == other
  }

  /**
   * `String.lines()` for text whose only line separator is '\n': the text
   * is cut at every '\n'; a text ending in '\n' (or the empty text) has an
   * empty last line. Defined by peeling off the last character.
   */
  function SplitLines(s: string): (r: seq<string>)
    ensures |r| >= 1
    ensures forall k :: 0 <= k < |r| ==> '\n' !in r[k]
    decreases |s|
  {
    if s == [] then [""]
    else
      var r := SplitLines(s[..|s| - 1]);
      var c := s[|s| - 1];
      if c == '\n' then r + [""]
      else r[..|r| - 1] + [r[|r| - 1] + [c]]
  }

  /** The lines put back together with '\n' between them. */
  function Join(ls: seq<string>): string
    requires |ls| >= 1
  {
    if |ls| == 1 then ls[0] else Join(ls[..|ls| - 1]) + "\n" + ls[|ls| - 1]
  }

  /**
   * `lines.take(k).sumOf { it.length + 1 }`: the number of characters of
   * the first `k` lines, each counted with its newline.
   */
  function LineStart(ls: seq<string>, k: nat): nat
    requires k <= |ls|
  {
    if k == 0 then 0 else LineStart(ls, k - 1) + |ls[k - 1]| + 1
  }

  /** Splitting into lines loses nothing: joining them gives the text back. */
  lemma {:induction false} JoinSplitLines(s: string)
    ensures Join(SplitLines(s)) == s
    decreases |s|
  {
    if s != [] {
      var init := s[..|s| - 1];
      var c := s[|s| - 1];
      var r := SplitLines(init);
      JoinSplitLines(init);
      if c == '\n' {
        assert (r + [""])[..|r|] == r;
      } else {
        var r' := r[..|r| - 1] + [r[|r| - 1] + [c]];
        if |r| == 1 {
          assert Join(r') == r[0] + [c];
        } else {
          assert r'[..|r'| - 1] == r[..|r| - 1];
          assert Join(r') == Join(r[..|r| - 1]) + "\n" + (r[|r| - 1] + [c]);
        }
      }
      assert init + [c] == s;
    }
  }

  /** Splitting a line-free tail after a newline adds exactly that tail as the last line. */
  lemma {:induction false} SplitLinesAppendLine(x: string, y: string)
    requires '\n' !in y
    ensures SplitLines(x + "\n" + y) == SplitLines(x) + [y]
    decreases |y|
  {
    if y == [] {
      assert x + "\n" + y == x + "\n";
      assert (x + "\n")[..|x|] == x;
    } else {
      var y' := y[..|y| - 1];
      assert '\n' !in y' by {
        forall i | 0 <= i < |y'| ensures y'[i] != '\n' { assert y'[i] == y[i]; }
      }
      SplitLinesAppendLine(x, y');
      var s := x + "\n" + y;
      assert s[..|s| - 1] == x + "\n" + y';
      assert s[|s| - 1] == y[|y| - 1];
      assert y' + [y[|y| - 1]] == y;
    }
  }

  /** The other direction: lines without '\n' are recovered from their join. */
  lemma {:induction false} SplitLinesJoin(ls: seq<string>)
    requires |ls| >= 1
    requires forall k :: 0 <= k < |ls| ==> '\n' !in ls[k]
    ensures SplitLines(Join(ls)) == ls
  {
    if |ls| == 1 {
      SplitLinesOfLine(ls[0]);
    } else {
      var init := ls[..|ls| - 1];
      SplitLinesJoin(init);
      SplitLinesAppendLine(Join(init), ls[|ls| - 1]);
      assert init + [ls[|ls| - 1]] == ls;
    }
  }

  /** A text without '\n' is a single line. */
  lemma {:induction false} SplitLinesOfLine(y: string)
    requires '\n' !in y
    ensures SplitLines(y) == [y]
    decreases |y|
  {
    if y != [] {
      var y' := y[..|y| - 1];
      assert '\n' !in y' by {
        forall i | 0 <= i < |y'| ensures y'[i] != '\n' { assert y'[i] == y[i]; }
      }
      SplitLinesOfLine(y');
      assert y' + [y[|y| - 1]] == y;
    }
  }

  /** Joining one more line appends a newline and that line. */
  lemma JoinStep(ls: seq<string>, n: nat)
    requires 1 <= n < |ls|
    ensures Join(ls[..n + 1]) == Join(ls[..n]) + "\n" + ls[n]
  {
    assert ls[..n + 1][..n] == ls[..n];
  }

  /** The join of the first `n` lines is one character shorter than their line start count. */
  lemma {:induction false} JoinPrefixLength(ls: seq<string>, n: nat)
    requires 1 <= n <= |ls|
    ensures |Join(ls[..n])| + 1 == LineStart(ls, n)
  {
    if n == 1 {
      assert ls[..1] == [ls[0]];
    } else {
      JoinPrefixLength(ls, n - 1);
      JoinStep(ls, n - 1);
    }
  }

  /** The join of the first `n` lines is a prefix of the join of all of them. */
  lemma {:induction false} JoinPrefix(ls: seq<string>, n: nat)
    requires 1 <= n <= |ls|
    ensures |Join(ls[..n])| <= |Join(ls)|
    ensures Join(ls)[..|Join(ls[..n])|] == Join(ls[..n])
    decreases |ls| - n
  {
    if n == |ls| {
      assert ls[..n] == ls;
    } else {
      JoinStep(ls, n);
      JoinPrefix(ls, n + 1);
      var a := Join(ls[..n]);
      var b := Join(ls[..n + 1]);
      assert b[..|a|] == a;
    }
  }

  /** The join of all lines is one character shorter than the start of a line after the last. */
  lemma JoinLength(ls: seq<string>)
    requires |ls| >= 1
    ensures LineStart(ls, |ls|) == |Join(ls)| + 1
  {
    JoinPrefixLength(ls, |ls|);
    assert ls[..|ls|] == ls;
  }

  /**
   * Line `k` sits in the joined text exactly at `LineStart(ls, k)`, and the
   * character before it is the newline ending line `k - 1`.
   */
  lemma LineStartInJoin(ls: seq<string>, k: nat)
    requires k < |ls|
    ensures LineStart(ls, k) + |ls[k]| <= |Join(ls)|
    ensures Join(ls)[LineStart(ls, k)..LineStart(ls, k) + |ls[k]|] == ls[k]
    ensures k > 0 ==> Join(ls)[LineStart(ls, k) - 1] == '\n'
  {
    var upTo := Join(ls[..k + 1]);
    JoinPrefix(ls, k + 1);
    var whole := Join(ls);
    if k == 0 {
      assert ls[..1] == [ls[0]];
      PrefixSlice(whole, upTo, 0, |ls[0]|);
    } else {
      JoinStep(ls, k);
      JoinPrefixLength(ls, k);
      var before := Join(ls[..k]);
      assert LineStart(ls, k) == |before| + 1;
      assert upTo[|before| + 1..] == ls[k];
      PrefixSlice(whole, upTo, |before| + 1, |upTo|);
      assert upTo[|before|] == '\n';
      PrefixSlice(whole, upTo, |before|, |before| + 1);
    }
  }

  /** A slice inside a prefix is the same slice of the whole. */
  lemma PrefixSlice(whole: string, prefix: string, a: nat, b: nat)
    requires |prefix| <= |whole| && whole[..|prefix|] == prefix
    requires a <= b <= |prefix|
    ensures whole[a..b] == prefix[a..b]
  {
    forall i | a <= i < b ensures whole[i] == prefix[i] {
      assert whole[..|prefix|][i] == whole[i];
    }
  }

  /** The decimal digits of a natural number, most significant first. */
  function NatToDecimal(n: nat): (s: string)
    ensures |s| >= 1
    ensures forall i :: 0 <= i < |s| ==> '0' <= s[i] <= '9'
    ensures s[0] == '0' ==> n == 0
  {
    if n < 10 then [DigitChar(n)] else NatToDecimal(n / 10) + [DigitChar(n % 10)]
  }

  /** The character of decimal digit `d`. */
  function DigitChar(d: nat): (c: char)
    requires d < 10
    ensures '0' <= c <= '9'
    ensures (c as int) - ('0' as int) == d
  {
    (('0' as int) + d) as char
  }

  /** The number a string of decimal digits stands for. */
  function DecimalValue(s: string): nat
    requires forall i :: 0 <= i < |s| ==> '0' <= s[i] <= '9'
  {
    if s == [] then 0
    else DecimalValue(s[..|s| - 1]) * 10 + ((s[|s| - 1] as int) - ('0' as int))
  }

  /** `Int.toString()`: a minus sign for negative numbers, then the digits. */
  function IntToString(n: int): string {
    if n < 0 then "-" + NatToDecimal(-n) else NatToDecimal(n)
  }

  /** The digits `NatToDecimal` writes stand for the number written. */
  lemma {:induction false} NatToDecimalValue(n: nat)
    ensures DecimalValue(NatToDecimal(n)) == n
  {
    var s := NatToDecimal(n);
    if n >= 10 {
      var q, r := n / 10, n % 10;
      NatToDecimalValue(q);
      assert s[..|s| - 1] == NatToDecimal(q);
      assert s[|s| - 1] == DigitChar(r);
      assert DecimalValue(s) == q * 10 + r;
    } else {
      assert s[..0] == [];
    }
  }
}
