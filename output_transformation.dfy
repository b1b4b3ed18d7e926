/**
 * The highlighter of the output pane (`OutputTransformation`): the output
 * is split into lines, every line is re-emitted followed by a newline,
 * lines that start with the error prefix are painted in the error style and
 * carry an "ERROR" annotation over their exact span, and the offset map is
 * consecutive.
 */
module OutputTransformation {
  import opened Wrappers
  import opened TextOps
  import opened VisualTransformation

  /** `addStringAnnotation(tag, annotation, start, end)`: a tagged range with a payload. */
  datatype Annotation = Annotation(tag: string, item: string, start: int, end: int)

  /** A line is an error line when there is a prefix and the line starts with it. */
  predicate IsErrorLine(errorPrefix: Option<string>, line: string) {
    errorPrefix.Some? && StartsWith(line, errorPrefix.value)
  }

  /** The style of a line's characters: underlined error colour, or none. */
  function LineStyle(errorPrefix: Option<string>, line: string): Style {
    if IsErrorLine(errorPrefix, line) then ErrorUnderlined else Unstyled
  }

  /** What the highlighter emits for the first `n` lines: each line, painted, then a newline. */
  function Emitted(errorPrefix: Option<string>, ls: seq<string>, n: nat): seq<Styled>
    requires n <= |ls|
  {
    if n == 0 then []
    else Emitted(errorPrefix, ls, n - 1) + Paint(ls[n - 1], LineStyle(errorPrefix, ls[n - 1])) + Paint("\n", Unstyled)
  }

  /** The annotation of line `k`: its text, from its line start to just before its newline. */
  function ErrorAnnotation(ls: seq<string>, k: nat): Annotation
    requires k < |ls|
  {
    Annotation("ERROR", ls[k], LineStart(ls, k), LineStart(ls, k) + |ls[k]|)
  }

  /** The annotations of the first `n` lines: one per error line, in line order. */
  function Annotations(errorPrefix: Option<string>, ls: seq<string>, n: nat): seq<Annotation>
    requires n <= |ls|
  {
    if n == 0 then []
    else Annotations(errorPrefix, ls, n - 1) + (if IsErrorLine(errorPrefix, ls[n - 1]) then [ErrorAnnotation(ls, n - 1)] else [])
  }

  /** `a` is the annotation of one of the error lines among the first `n`. */
  predicate AnnotatesErrorLine(errorPrefix: Option<string>, ls: seq<string>, n: nat, a: Annotation)
    requires n <= |ls|
  {
    exists k :: 0 <= k < n && IsErrorLine(errorPrefix, ls[k]) && a == ErrorAnnotation(ls, k)
  }

  /** The offsets `0, 1, ..., n - 1`. */
  function Consecutive(n: nat): (r: seq<int>)
    ensures |r| == n
    ensures forall k {:trigger r[k]} :: 0 <= k < n ==> r[k] == k
  {
    seq(n, k requires 0 <= k < n => k)
  }

  class OutputTransformation {
    /** The prefix that marks an error line; no prefix means no line is one. */
    var errorPrefix: Option<string>

    constructor()
      ensures errorPrefix == None
    {
      errorPrefix := None;
    }

    /**
     * `highlight`: every line of `text` is appended, painted when it is an
     * error line and then annotated over its span, followed by a newline;
     * one offset per appended character is recorded, counting up from 0.
     */
    method Highlight(text: string) returns (annotated: seq<Styled>, annotations: seq<Annotation>, mapping: OffsetMapping)
      ensures annotated == Emitted(errorPrefix, SplitLines(text), |SplitLines(text)|)
      ensures annotations == Annotations(errorPrefix, SplitLines(text), |SplitLines(text)|)
      ensures mapping == Table(Consecutive(|text| + 1), |text|)
    {
      var offsetMapToOriginal := [];
      annotated, annotations := [], [];
      var lines := SplitLines(text);
      var currentOffset := 0;
      for n := 0 to |lines|
        invariant annotated == Emitted(errorPrefix, lines, n)
        invariant annotations == Annotations(errorPrefix, lines, n)
        invariant currentOffset == LineStart(lines, n)
        invariant offsetMapToOriginal == Consecutive(currentOffset)
      {
        var line := lines[n];
        if errorPrefix != None && StartsWith(line, errorPrefix.value) {
          annotated := annotated + Paint(line, ErrorUnderlined);
          annotations := annotations + [Annotation("ERROR", line, currentOffset, currentOffset + |line|)];
        } else {
          annotated := annotated + Paint(line, Unstyled);
        }
        annotated := annotated + Paint("\n", Unstyled);
        for r := 0 to |line| + 1
          invariant currentOffset == LineStart(lines, n) + r
          invariant offsetMapToOriginal == Consecutive(currentOffset)
        {
          ConsecutiveSnoc(currentOffset);
          offsetMapToOriginal := offsetMapToOriginal + [currentOffset];
          currentOffset := currentOffset + 1;
        }
      }
      JoinSplitLines(text);
      JoinLength(lines);
      mapping := Table(offsetMapToOriginal, |text|);
    }
  }

  /** Recording the next offset extends the consecutive run by one. */
  lemma ConsecutiveSnoc(n: nat)
    ensures Consecutive(n) + [n] == Consecutive(n + 1)
  {
    assert (Consecutive(n) + [n])[n] == n;
  }

  /** The emitted characters of the first `n` lines are as many as those lines with their newlines. */
  lemma {:induction false} EmittedLength(errorPrefix: Option<string>, ls: seq<string>, n: nat)
    requires n <= |ls|
    ensures |Emitted(errorPrefix, ls, n)| == LineStart(ls, n)
  {
    if n > 0 {
      EmittedLength(errorPrefix, ls, n - 1);
    }
  }

  /** `Chars` distributes over concatenation. */
  lemma CharsAppend(a: seq<Styled>, b: seq<Styled>)
    ensures Chars(a + b) == Chars(a) + Chars(b)
  {
  }

  /** The text of the first `n >= 1` lines as emitted: their join, then a newline. */
  lemma {:induction false} EmittedChars(errorPrefix: Option<string>, ls: seq<string>, n: nat)
    requires 1 <= n <= |ls|
    ensures Chars(Emitted(errorPrefix, ls, n)) == Join(ls[..n]) + "\n"
  {
    var before := Emitted(errorPrefix, ls, n - 1);
    var line := Paint(ls[n - 1], LineStyle(errorPrefix, ls[n - 1]));
    var nl := Paint("\n", Unstyled);
    CharsAppend(before + line, nl);
    CharsAppend(before, line);
    assert Chars(line) == ls[n - 1];
    assert Chars(nl) == "\n";
    if n == 1 {
      assert Chars(before) == [];
      assert ls[..1] == [ls[0]];
    } else {
      EmittedChars(errorPrefix, ls, n - 1);
      JoinStep(ls, n - 1);
    }
  }

  /**
   * The output pane shows the text followed by one newline, whatever the
   * prefix: the lines of `text`, each with its newline.
   */
  lemma OutputText(errorPrefix: Option<string>, text: string)
    ensures Chars(Emitted(errorPrefix, SplitLines(text), |SplitLines(text)|)) == text + "\n"
  {
    var ls := SplitLines(text);
    EmittedChars(errorPrefix, ls, |ls|);
    assert ls[..|ls|] == ls;
    JoinSplitLines(text);
  }

  /** What was emitted for the first `j` lines stays at the front of what is emitted for more. */
  lemma {:induction false} EmittedPrefix(errorPrefix: Option<string>, ls: seq<string>, j: nat, n: nat)
    requires j <= n <= |ls|
    ensures |Emitted(errorPrefix, ls, j)| <= |Emitted(errorPrefix, ls, n)|
    ensures Emitted(errorPrefix, ls, n)[..|Emitted(errorPrefix, ls, j)|] == Emitted(errorPrefix, ls, j)
    decreases n - j
  {
    if j < n {
      EmittedPrefix(errorPrefix, ls, j, n - 1);
      var a, b := Emitted(errorPrefix, ls, j), Emitted(errorPrefix, ls, n - 1);
      var c := Emitted(errorPrefix, ls, n);
      assert c[..|b|] == b;
      assert c[..|a|] == b[..|a|];
    }
  }

  /**
   * The characters of line `k` sit at `LineStart(ls, k)` onwards in the
   * line's style, and the newline after them is unstyled.
   */
  lemma EmittedAt(errorPrefix: Option<string>, ls: seq<string>, k: nat, q: nat)
    requires k < |ls| && q <= |ls[k]|
    ensures LineStart(ls, k) + q < |Emitted(errorPrefix, ls, |ls|)|
    ensures Emitted(errorPrefix, ls, |ls|)[LineStart(ls, k) + q] ==
      if q < |ls[k]| then Styled(ls[k][q], LineStyle(errorPrefix, ls[k])) else Styled('\n', Unstyled)
  {
    var whole, upTo := Emitted(errorPrefix, ls, |ls|), Emitted(errorPrefix, ls, k + 1);
    EmittedPrefix(errorPrefix, ls, k + 1, |ls|);
    EmittedLength(errorPrefix, ls, k);
    EmittedLength(errorPrefix, ls, k + 1);
    var t := LineStart(ls, k) + q;
    assert t < |upTo|;
    assert whole[t] == whole[..|upTo|][t];
  }

  /** Without a prefix nothing is styled. */
  lemma {:induction false} NoPrefixUnstyled(ls: seq<string>, n: nat)
    requires n <= |ls|
    ensures forall t :: 0 <= t < |Emitted(None, ls, n)| ==> Emitted(None, ls, n)[t].style == Unstyled
  {
    if n > 0 {
      NoPrefixUnstyled(ls, n - 1);
    }
  }

  /** Without a prefix nothing is annotated. */
  lemma {:induction false} NoPrefixNoAnnotations(ls: seq<string>, n: nat)
    requires n <= |ls|
    ensures Annotations(None, ls, n) == []
  {
    if n > 0 {
      NoPrefixNoAnnotations(ls, n - 1);
    }
  }

  /** With the empty prefix every line is an error line and is annotated. */
  lemma {:induction false} EmptyPrefixAnnotatesEveryLine(ls: seq<string>, n: nat)
    requires n <= |ls|
    ensures |Annotations(Some(""), ls, n)| == n
    ensures forall k :: 0 <= k < n ==> Annotations(Some(""), ls, n)[k] == ErrorAnnotation(ls, k)
  {
    if n > 0 {
      EmptyPrefixAnnotatesEveryLine(ls, n - 1);
      assert StartsWith(ls[n - 1], "");
    }
  }

  /**
   * Every annotation is the "ERROR" annotation of an error line among the
   * first `n`, and it ends before the start of line `n`.
   */
  lemma {:induction false} AnnotationsFromErrorLines(errorPrefix: Option<string>, ls: seq<string>, n: nat)
    requires n <= |ls|
    ensures forall i :: 0 <= i < |Annotations(errorPrefix, ls, n)| ==>
      && Annotations(errorPrefix, ls, n)[i].tag == "ERROR"
      && Annotations(errorPrefix, ls, n)[i].end < LineStart(ls, n)
      && AnnotatesErrorLine(errorPrefix, ls, n, Annotations(errorPrefix, ls, n)[i])
  {
    if n > 0 {
      AnnotationsFromErrorLines(errorPrefix, ls, n - 1);
      LineStartBefore(ls, n - 1, n);
      var before := Annotations(errorPrefix, ls, n - 1);
      var all := Annotations(errorPrefix, ls, n);
      forall i | 0 <= i < |all|
        ensures && all[i].tag == "ERROR"
                && all[i].end < LineStart(ls, n)
                && AnnotatesErrorLine(errorPrefix, ls, n, all[i])
      {
        var k;
        if i < |before| {
          assert all[i] == before[i];
          assert AnnotatesErrorLine(errorPrefix, ls, n - 1, before[i]);
          k :| 0 <= k < n - 1 && IsErrorLine(errorPrefix, ls[k]) && before[i] == ErrorAnnotation(ls, k);
        } else {
          k := n - 1;
        }
        assert 0 <= k < n && IsErrorLine(errorPrefix, ls[k]) && all[i] == ErrorAnnotation(ls, k);
      }
    } else {
      assert Annotations(errorPrefix, ls, n) == [];
    }
  }

  /** Line starts grow with the line number. */
  lemma {:induction false} LineStartBefore(ls: seq<string>, j: nat, n: nat)
    requires j <= n <= |ls|
    ensures LineStart(ls, j) + (if j < n then |ls[j]| + 1 else 0) <= LineStart(ls, n)
    decreases n - j
  {
    if j < n {
      LineStartBefore(ls, j, n - 1);
      assert LineStart(ls, n) == LineStart(ls, n - 1) + |ls[n - 1]| + 1;
    }
  }

  /** Annotations are pairwise disjoint and in increasing order: each ends before the next starts. */
  lemma {:induction false} AnnotationsOrdered(errorPrefix: Option<string>, ls: seq<string>, n: nat)
    requires n <= |ls|
    ensures forall i, j :: 0 <= i < j < |Annotations(errorPrefix, ls, n)| ==>
      Annotations(errorPrefix, ls, n)[i].start <= Annotations(errorPrefix, ls, n)[i].end < Annotations(errorPrefix, ls, n)[j].start
  {
    if n > 0 {
      AnnotationsOrdered(errorPrefix, ls, n - 1);
      AnnotationsFromErrorLines(errorPrefix, ls, n - 1);
      var before := Annotations(errorPrefix, ls, n - 1);
      var all := Annotations(errorPrefix, ls, n);
      forall i, j | 0 <= i < j < |all|
        ensures Annotations(errorPrefix, ls, n)[i].start <= Annotations(errorPrefix, ls, n)[i].end < Annotations(errorPrefix, ls, n)[j].start
      {
        assert all[i] == before[i];
        assert AnnotatesErrorLine(errorPrefix, ls, n - 1, before[i]);
        var k :| 0 <= k < n - 1 && IsErrorLine(errorPrefix, ls[k]) && before[i] == ErrorAnnotation(ls, k);
        if j >= |before| {
          assert all[j] == ErrorAnnotation(ls, n - 1);
        } else {
          assert all[j] == before[j];
        }
      }
    } else {
      assert Annotations(errorPrefix, ls, n) == [];
    }
  }

  /** Every error line among the first `n` has its annotation. */
  lemma {:induction false} AnnotationsComplete(errorPrefix: Option<string>, ls: seq<string>, n: nat)
    requires n <= |ls|
    ensures forall k :: 0 <= k < n && IsErrorLine(errorPrefix, ls[k]) ==> ErrorAnnotation(ls, k) in Annotations(errorPrefix, ls, n)
  {
    if n > 0 {
      AnnotationsComplete(errorPrefix, ls, n - 1);
      var before := Annotations(errorPrefix, ls, n - 1);
      var all := Annotations(errorPrefix, ls, n);
      forall k | 0 <= k < n && IsErrorLine(errorPrefix, ls[k]) ensures ErrorAnnotation(ls, k) in all {
        if k < n - 1 {
          var i :| 0 <= i < |before| && before[i] == ErrorAnnotation(ls, k);
          assert all[i] == before[i];
        } else {
          assert all[|before|] == ErrorAnnotation(ls, k);
        }
      }
    }
  }

  /**
   * An annotation's range in the output covers exactly its line, which is
   * its payload: the text between its start and end is the line itself.
   */
  lemma ErrorAnnotationSpan(text: string, k: nat)
    requires k < |SplitLines(text)|
    ensures var a := ErrorAnnotation(SplitLines(text), k);
      0 <= a.start <= a.end <= |text| && text[a.start..a.end] == a.item
  {
    LineStartInJoin(SplitLines(text), k);
    JoinSplitLines(text);
  }

  /**
   * The consecutive map takes every offset of the output to the same
   * offset of the text, and back.
   */
  lemma ConsecutiveMapping(n: nat, k: int)
    requires 0 <= k <= n
    ensures TransformedToOriginal(Table(Consecutive(n + 1), n), k) == k
    ensures OriginalToTransformed(Table(Consecutive(n + 1), n), k) == k
  {
    assert Consecutive(n + 1)[k] == k;
  }
}
