/**
 String helpers: Swift's `split(separator:)` (empty pieces dropped) and
 `joined(separator:)`, `prependToEachLine` built from them, and
 `maskingMarkdown`.

 Strings are sequences of Unicode scalars, whereas Swift splits, searches
 and counts extended grapheme clusters. Splitting agrees with Swift only
 where every `\n` is a grapheme cluster of its own: `"\r\n"` is one Swift
 `Character`, so text with CRLF line ends is outside what `Split`, `Lines`
 and `PrependToEachLine` promise. Masking agrees only where no markup
 character begins a larger cluster (a markup character followed by a
 combining mark is left alone by Swift).
 */
module Text {

  const Newline: char := '\n'

  /** The index of the first `sep` in `s`, or `|s|` when there is none. */
  function LineEnd(s: string, sep: char): (k: nat)
    ensures k <= |s|
    ensures forall i :: 0 <= i < k ==> s[i] != sep
    ensures k < |s| ==> s[k] == sep
  {
    if |s| == 0 || s[0] == sep then 0 else 1 + LineEnd(s[1..], sep)
  }

  /** `split(separator: sep)`: the maximal `sep`-free pieces of `s`, empty
      pieces omitted. */
  function Split(s: string, sep: char): (pieces: seq<string>)
    ensures forall i :: 0 <= i < |pieces| ==> |pieces[i]| > 0 && sep !in pieces[i]
    decreases |s|
  {
    if |s| == 0 then []
    else if s[0] == sep then Split(s[1..], sep)
    else
      var k := LineEnd(s, sep);
      [s[..k]] + Split(s[k..], sep)
  }

  /** `joined(separator: sep)`. */
  function Join(pieces: seq<string>, sep: string): string
  {
    if |pieces| == 0 then ""
    else if |pieces| == 1 then pieces[0]
    else pieces[0] + sep + Join(pieces[1..], sep)
  }

  /** The characters of `s` other than `sep`, in order. */
  function Without(s: string, sep: char): string
  {
    if |s| == 0 then "" else (if s[0] == sep then "" else [s[0]]) + Without(s[1..], sep)
  }

  function Concat(pieces: seq<string>): string
  {
    if |pieces| == 0 then "" else pieces[0] + Concat(pieces[1..])
  }

  lemma {:induction false} WithoutAppend(a: string, b: string, sep: char)
    ensures Without(a + b, sep) == Without(a, sep) + Without(b, sep)
  {
    if |a| > 0 {
      assert (a + b)[1..] == a[1..] + b;
      WithoutAppend(a[1..], b, sep);
    } else {
      assert a + b == b;
    }
  }

  lemma {:induction false} WithoutFree(s: string, sep: char)
    requires sep !in s
    ensures Without(s, sep) == s
  {
    if |s| > 0 {
      WithoutFree(s[1..], sep);
    }
  }

  /** Splitting loses nothing but separators: the pieces, concatenated, are
      `s` with every `sep` removed. */
  lemma {:induction false} SplitKeepsContent(s: string, sep: char)
    ensures Concat(Split(s, sep)) == Without(s, sep)
    decreases |s|
  {
    if |s| == 0 {
    } else if s[0] == sep {
      SplitKeepsContent(s[1..], sep);
    } else {
      var k := LineEnd(s, sep);
      assert s == s[..k] + s[k..];
      SplitKeepsContent(s[k..], sep);
      WithoutAppend(s[..k], s[k..], sep);
      WithoutFree(s[..k], sep);
      var pieces := Split(s, sep);
      assert pieces == [s[..k]] + Split(s[k..], sep);
      assert pieces[1..] == Split(s[k..], sep);
    }
  }

  /** A non-empty piece without separators splits to itself. */
  lemma SplitPiece(p: string, sep: char)
    requires |p| > 0 && sep !in p
    ensures Split(p, sep) == [p]
  {
    assert LineEnd(p, sep) == |p|;
    assert p[..|p|] == p;
    assert p[|p|..] == "";
  }

  /** Splitting distributes over one separator: what lies left of it and
      what lies right of it split independently. */
  lemma {:induction false} SplitAround(a: string, b: string, sep: char)
    ensures Split(a + [sep] + b, sep) == Split(a, sep) + Split(b, sep)
    decreases |a|
  {
    var s := a + [sep] + b;
    assert s == a + ([sep] + b);
    if |a| == 0 {
      assert s[1..] == b;
    } else if a[0] == sep {
      assert s[1..] == a[1..] + [sep] + b;
      SplitAround(a[1..], b, sep);
    } else {
      var k := LineEnd(a, sep);
      if k < |a| {
        assert LineEnd(s, sep) == k by { LineEndPrefix(a, [sep] + b, sep, k); }
        assert s[..k] == a[..k];
        assert s[k..] == a[k..] + [sep] + b;
        SplitAround(a[k..], b, sep);
      } else {
        assert LineEnd(s, sep) == |a| by { LineEndPrefix(a, [sep] + b, sep, |a|); }
        assert s[..|a|] == a;
        assert s[|a|..] == [sep] + b;
        assert ([sep] + b)[1..] == b;
        assert Split(s[|a|..], sep) == Split(b, sep);
        assert Split(s, sep) == [a] + Split(b, sep);
        assert a[..|a|] == a && a[|a|..] == "";
        assert Split(a, sep) == [a];
      }
    }
  }

  lemma {:induction false} LineEndPrefix(a: string, b: string, sep: char, k: nat)
    requires k <= |a|
    requires forall i :: 0 <= i < k ==> a[i] != sep
    requires (k < |a| && a[k] == sep) || (k == |a| && |b| > 0 && b[0] == sep)
    ensures LineEnd(a + b, sep) == k
    ensures k < |a| ==> LineEnd(a, sep) == k
    decreases k
  {
    if k > 0 {
      assert (a + b)[1..] == a[1..] + b;
      LineEndPrefix(a[1..], b, sep, k - 1);
    }
  }

  /** Joining separator-free pieces and splitting again gives the pieces
      back. */
  lemma {:induction false} SplitJoin(pieces: seq<string>, sep: char)
    requires forall i :: 0 <= i < |pieces| ==> |pieces[i]| > 0 && sep !in pieces[i]
    ensures Split(Join(pieces, [sep]), sep) == pieces
  {
    if |pieces| == 1 {
      SplitPiece(pieces[0], sep);
    } else if |pieces| > 1 {
      SplitAround(pieces[0], Join(pieces[1..], [sep]), sep);
      SplitPiece(pieces[0], sep);
      SplitJoin(pieces[1..], sep);
      assert pieces == [pieces[0]] + pieces[1..];
    }
  }

  /** Splitting a join of arbitrary texts splits each text, in order. */
  lemma {:induction false} SplitJoinTexts(texts: seq<string>, sep: char)
    ensures Split(Join(texts, [sep]), sep) == SplitEach(texts, sep)
  {
    if |texts| == 1 {
      assert Split(texts[0], sep) + [] == Split(texts[0], sep);
    } else if |texts| > 1 {
      SplitAround(texts[0], Join(texts[1..], [sep]), sep);
      SplitJoinTexts(texts[1..], sep);
    }
  }

  /** The pieces of every text, one after the other. */
  function SplitEach(texts: seq<string>, sep: char): seq<string>
  {
    if |texts| == 0 then [] else Split(texts[0], sep) + SplitEach(texts[1..], sep)
  }

  /** The `\n`-separated non-empty lines of `s`. */
  function Lines(s: string): seq<string>
  {
    Split(s, Newline)
  }

  function Prefixed(pieces: seq<string>, prefix: string): (r: seq<string>)
    ensures |r| == |pieces|
    ensures forall i :: 0 <= i < |r| ==> r[i] == prefix + pieces[i]
  {
    seq(|pieces|, i requires 0 <= i < |pieces| => prefix + pieces[i])
  }

  /** `prependToEachLine(prefix)`: every non-empty line, with `prefix` in
      front, joined by newlines. */
  function PrependToEachLine(s: string, prefix: string): (r: string)
    ensures s == "" ==> r == ""
  {
    Join(Prefixed(Lines(s), prefix), [Newline])
  }

  /** For a prefix without newlines the lines of the result are the
      non-empty lines of the input, each behind the prefix: as many lines as
      the input has non-empty lines, each starting with the prefix, and
      removing the prefix gives the input's lines back in order. */
  lemma PrependToEachLineLines(s: string, prefix: string)
    requires Newline !in prefix
    ensures Lines(PrependToEachLine(s, prefix)) == Prefixed(Lines(s), prefix)
    ensures |Lines(PrependToEachLine(s, prefix))| == |Lines(s)|
    ensures forall i :: 0 <= i < |Lines(s)| ==>
      && Lines(PrependToEachLine(s, prefix))[i][..|prefix|] == prefix
      && Lines(PrependToEachLine(s, prefix))[i][|prefix|..] == Lines(s)[i]
  {
    var lines := Prefixed(Lines(s), prefix);
    forall i | 0 <= i < |lines|
      ensures |lines[i]| > 0 && Newline !in lines[i]
    {
      assert lines[i] == prefix + Lines(s)[i];
    }
    SplitJoin(lines, Newline);
  }

  // ---------------------------------------------------------------------------
  // maskingMarkdown
  // ---------------------------------------------------------------------------

  /** `replacingOccurrences(of: [a], with: [b])` for one-character strings:
      no `a` survives (unless `a` is `b`), `b` occurs exactly where `a` or `b`
      occurred, and every other character stays put. */
  function ReplaceChar(s: string, a: char, b: char): (r: string)
    ensures |r| == |s|
    ensures forall i :: 0 <= i < |s| ==> r[i] == if s[i] == a then b else s[i]
    ensures a != b ==> a !in r
    ensures forall i :: 0 <= i < |s| ==> (r[i] == b <==> s[i] == a || s[i] == b)
    ensures forall i :: 0 <= i < |s| && s[i] != a ==> r[i] == s[i]
  {
    seq(|s|, i requires 0 <= i < |s| => if s[i] == a then b else s[i])
  }

  const SmallAsterisk: char := '\U{FE61}'
  const BottomLine: char := '\U{23BD}'
  const FullwidthGreater: char := '\U{FF1E}'
  const FullwidthLess: char := '\U{FF1C}'

  /** `maskingMarkdown()`: the five replacements, applied in source order. */
  function MaskingMarkdown(s: string): (r: string)
  {
    var step1 := ReplaceChar(s, '*', SmallAsterisk);
    var step2 := ReplaceChar(step1, '_', BottomLine);
    var step3 := ReplaceChar(step2, '`', '\'');
    var step4 := ReplaceChar(step3, '>', FullwidthGreater);
    ReplaceChar(step4, '<', FullwidthLess)
  }

  /** The markup characters the masking removes. */
  predicate IsMarkup(c: char)
  {
    c == '*' || c == '_' || c == '`' || c == '>' || c == '<'
  }

  /** The per-character substitution the masking amounts to. */
  function MaskChar(c: char): (m: char)
    ensures !IsMarkup(m)
    ensures !IsMarkup(c) ==> m == c
  {
    match c
    case '*' => SmallAsterisk
    case '_' => BottomLine
    case '`' => '\''
    case '>' => FullwidthGreater
    case '<' => FullwidthLess
    case _ => c
  }

  /** No replacement introduces a character a later one replaces, so the
      chain of replacements is a one-for-one character substitution: length
      kept, markup gone, every other character unchanged; and masking twice
      is masking once. */
  lemma MaskingMarkdownSubstitutes(s: string)
    ensures |MaskingMarkdown(s)| == |s|
    ensures forall i :: 0 <= i < |s| ==> MaskingMarkdown(s)[i] == MaskChar(s[i])
    ensures forall i :: 0 <= i < |s| ==> !IsMarkup(MaskingMarkdown(s)[i])
    ensures forall i :: 0 <= i < |s| && !IsMarkup(s[i]) ==> MaskingMarkdown(s)[i] == s[i]
    ensures MaskingMarkdown(MaskingMarkdown(s)) == MaskingMarkdown(s)
  {
    var m := MaskingMarkdown(s);
    assert forall i :: 0 <= i < |s| ==> m[i] == MaskChar(s[i]);
    assert forall i :: 0 <= i < |m| ==> MaskingMarkdown(m)[i] == MaskChar(m[i]);
  }
}
