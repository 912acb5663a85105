/**
 * The pretty-printer applied to generated JavaScript programs: a line break
 * after every `;`, `{` and `}`, a line break before every `}`, and two
 * spaces of indentation per open brace.
 */
module Prettify {
  import opened Sequences

  /** Two spaces per level; nothing for a level of zero or below (`range` of a non-positive count is empty). */
  function Indent(level: int): string
    decreases if level <= 0 then 0 else level
  {
    if level <= 0 then "" else Indent(level - 1) + "  "
  }

  /** How a character changes `indent_level`. */
  function Delta(ch: char): int {
    if ch == '{' then 1 else if ch == '}' then -1 else 0
  }

  /** The indentation level after reading `s`. */
  function DepthOf(s: string): int {
    if s == [] then 0 else Delta(s[0]) + DepthOf(s[1..])
  }

  /** What the printer writes before a character: a line break and the decremented indentation before `}`. */
  function PieceBefore(ch: char, level: int): string {
    if ch == '}' then "\n" + Indent(level - 1) else ""
  }

  /** What the printer writes after a character: a line break and the new indentation after `;`, `{` and `}`. */
  function PieceAfter(ch: char, level: int): string {
    if ch == '}' then "\n" + Indent(level - 1)
    else if ch == ';' then "\n" + Indent(level)
    else if ch == '{' then "\n" + Indent(level + 1)
    else ""
  }

  /** What one character becomes at indentation level `level`. */
  function Piece(ch: char, level: int): string {
    PieceBefore(ch, level) + [ch] + PieceAfter(ch, level)
  }

  /** The printed form of `s` read from indentation level `level` on. */
  function PrettyFrom(s: string, level: int): string {
    if s == [] then "" else Piece(s[0], level) + PrettyFrom(s[1..], level + Delta(s[0]))
  }

  /** Printing `s` followed by one more character appends that character's piece at the level reached by `s`. */
  lemma {:induction false} PrettyFromAppend(s: string, ch: char, level: int)
    ensures PrettyFrom(s + [ch], level) == PrettyFrom(s, level) + Piece(ch, level + DepthOf(s))
    decreases |s|
  {
    if s == [] {
      assert s + [ch] == [ch];
      assert [ch][1..] == [];
    } else {
      var t := s + [ch];
      var next := level + Delta(s[0]);
      var piece := Piece(s[0], level);
      assert t[0] == s[0] && t[1..] == s[1..] + [ch];
      assert PrettyFrom(t, level) == piece + PrettyFrom(s[1..] + [ch], next);
      PrettyFromAppend(s[1..], ch, next);
      assert next + DepthOf(s[1..]) == level + DepthOf(s);
      AppendAssoc(piece, PrettyFrom(s[1..], next), Piece(ch, level + DepthOf(s)));
    }
  }

  /** Reading one more character moves the level by that character's delta. */
  lemma {:induction false} DepthOfAppend(s: string, ch: char)
    ensures DepthOf(s + [ch]) == DepthOf(s) + Delta(ch)
    decreases |s|
  {
    if s == [] {
      assert s + [ch] == [ch];
      assert [ch][1..] == [];
    } else {
      var t := s + [ch];
      assert t[0] == s[0] && t[1..] == s[1..] + [ch];
      DepthOfAppend(s[1..], ch);
    }
  }

  /** The indentation for `level` is `2 * level` spaces. */
  lemma {:induction false} IndentIsSpaces(level: int)
    ensures |Indent(level)| == if level <= 0 then 0 else 2 * level
    ensures forall k :: 0 <= k < |Indent(level)| ==> Indent(level)[k] == ' '
    decreases if level <= 0 then 0 else level
  {
    if level > 0 {
      IndentIsSpaces(level - 1);
    }
  }

  /** Printing a concatenation prints the second part from the level the first part reaches. */
  lemma {:induction false} PrettyFromSplit(p: string, q: string, level: int)
    ensures PrettyFrom(p + q, level) == PrettyFrom(p, level) + PrettyFrom(q, level + DepthOf(p))
    decreases |p|
  {
    if p == [] {
      assert p + q == q;
    } else {
      var next := level + Delta(p[0]);
      var piece := Piece(p[0], level);
      assert (p + q)[0] == p[0] && (p + q)[1..] == p[1..] + q;
      assert PrettyFrom(p + q, level) == piece + PrettyFrom(p[1..] + q, next);
      PrettyFromSplit(p[1..], q, next);
      assert next + DepthOf(p[1..]) == level + DepthOf(p);
      AppendAssoc(piece, PrettyFrom(p[1..], next), PrettyFrom(q, level + DepthOf(p)));
    }
  }

  /**
   * Wherever a character occurs in a program, the output holds exactly its
   * piece at the level reached before it: `;` followed by a line break and
   * the current indentation, `{` followed by a line break and one level
   * more, `}` between two line breaks each followed by one level less, and
   * any other character alone.
   */
  lemma CharacterLayout(p: string, ch: char, q: string)
    ensures PrettyFrom(p + [ch] + q, 0) ==
      PrettyFrom(p, 0) + Piece(ch, DepthOf(p)) + PrettyFrom(q, DepthOf(p) + Delta(ch))
  {
    Layout(PrettyFrom(p + [ch] + q, 0), PrettyFrom(p + [ch], 0), PrettyFrom(p, 0), Piece(ch, DepthOf(p)),
           PrettyFrom(q, DepthOf(p + [ch])), PrettyFrom(q, DepthOf(p) + Delta(ch))) by {
      PrettyFromSplit(p + [ch], q, 0);
      PrettyFromAppend(p, ch, 0);
      DepthOfAppend(p, ch);
    }
  }

  /** The regrouping step of `CharacterLayout`, stated on the strings alone. */
  lemma Layout(whole: string, front: string, before: string, piece: string, back: string, back': string)
    requires whole == front + back && front == before + piece && back == back'
    ensures whole == before + piece + back'
  {
  }

  /** The piece of each character, written out. */
  lemma PieceShapes(ch: char, level: int)
    ensures ch == ';' ==> Piece(ch, level) == ";\n" + Indent(level)
    ensures ch == '{' ==> Piece(ch, level) == "{\n" + Indent(level + 1)
    ensures ch == '}' ==> Piece(ch, level) == "\n" + Indent(level - 1) + "}\n" + Indent(level - 1)
    ensures ch != ';' && ch != '{' && ch != '}' ==> Piece(ch, level) == [ch]
  {
  }

  /** The indentation level is the number of `{` read minus the number of `}` read. */
  lemma {:induction false} DepthIsBraceBalance(s: string)
    ensures DepthOf(s) == multiset(s)['{'] as int - multiset(s)['}'] as int
  {
    if s != [] {
      DepthIsBraceBalance(s[1..]);
      assert s == [s[0]] + s[1..];
      assert multiset(s) == multiset{s[0]} + multiset(s[1..]);
    }
  }

  /** `prettify`: builds the output character by character, appending the indentation with inner loops. */
  method Prettify(generatedProgram: string) returns (prettyProgram: string)
    ensures prettyProgram == PrettyFrom(generatedProgram, 0)
  {
    prettyProgram := "";
    var indentLevel := 0;
    for i := 0 to |generatedProgram|
      invariant indentLevel == DepthOf(generatedProgram[..i])
      invariant prettyProgram == PrettyFrom(generatedProgram[..i], 0)
    {
      var ch := generatedProgram[i];
      prettyProgram, indentLevel := PrintCharacter(prettyProgram, indentLevel, ch);
      assert generatedProgram[..i + 1] == generatedProgram[..i] + [ch];
      assert prettyProgram == PrettyFrom(generatedProgram[..i + 1], 0) by {
        PrettyFromAppend(generatedProgram[..i], ch, 0);
      }
      assert indentLevel == DepthOf(generatedProgram[..i + 1]) by {
        DepthOfAppend(generatedProgram[..i], ch);
      }
    }
    assert generatedProgram[..|generatedProgram|] == generatedProgram;
  }

  /** One turn of `prettify`'s loop: writes `ch` with the line breaks and indentation around it. */
  method PrintCharacter(before: string, level: int, ch: char) returns (out: string, level': int)
    ensures out == before + Piece(ch, level)
    ensures level' == level + Delta(ch)
  {
    out, level' := before, level;
    if ch == '}' {
      out := out + "\n";
      level' := level' - 1;
      out := AppendIndent(out, level');
      AppendAssoc(before, "\n", Indent(level'));
    } else {
      assert before + "" == before;
    }
    assert out == before + PieceBefore(ch, level);
    out := out + [ch];
    ghost var middle := out;
    if ch == ';' {
      out := out + "\n";
      out := AppendIndent(out, level');
      AppendAssoc(middle, "\n", Indent(level'));
    } else if ch == '{' {
      out := out + "\n";
      level' := level' + 1;
      out := AppendIndent(out, level');
      AppendAssoc(middle, "\n", Indent(level'));
    } else if ch == '}' {
      out := out + "\n";
      out := AppendIndent(out, level');
      AppendAssoc(middle, "\n", Indent(level'));
    } else {
      assert middle + "" == middle;
    }
    assert out == middle + PieceAfter(ch, level);
    AppendPiece(before, ch, level);
  }

  /** Concatenation regroups. */
  lemma AppendAssoc(a: string, b: string, c: string)
    ensures a + b + c == a + (b + c)
  {
  }

  /** Appending the parts of a piece one after the other appends the piece. */
  lemma AppendPiece(before: string, ch: char, level: int)
    ensures before + PieceBefore(ch, level) + [ch] + PieceAfter(ch, level) == before + Piece(ch, level)
  {
    var b, a := PieceBefore(ch, level), PieceAfter(ch, level);
    assert before + (b + [ch] + a) == before + b + [ch] + a;
  }

  /** `for _ in range(level): s += "  "`. */
  method AppendIndent(s: string, level: int) returns (r: string)
    ensures r == s + Indent(level)
  {
    r := s;
    var k := 0;
    while k < level
      invariant r == s + Indent(k) && (level <= 0 ==> k == 0) && (level > 0 ==> 0 <= k <= level)
      decreases level - k
    {
      r := r + "  ";
      k := k + 1;
    }
  }

  /** Every input character appears in the output, in the same order. */
  lemma {:induction false} PrettyKeepsInput(s: string, level: int)
    ensures IsSubsequence(s, PrettyFrom(s, level))
    decreases |s|
  {
    if s != [] {
      var ch := s[0];
      var rest := PrettyFrom(s[1..], level + Delta(ch));
      PrettyKeepsInput(s[1..], level + Delta(ch));
      var pre := PieceBefore(ch, level);
      var post := PieceAfter(ch, level);
      var tail := [ch] + (post + rest);
      assert IsSubsequence(s, pre + tail) by {
        SubsequenceOfSuffix(s[1..], post, rest);
        SubsequenceOfBothCons(ch, s[1..], post + rest);
        assert [ch] + s[1..] == s;
        SubsequenceOfSuffix(s, pre, tail);
      }
      assert pre + tail == PrettyFrom(s, level) by {
        AppendAssoc([ch], post, rest);
        AppendAssoc(pre, [ch] + post, rest);
        AppendAssoc(pre, [ch], post);
      }
    }
  }

  /** Text without `;`, `{` or `}` is printed unchanged. */
  lemma {:induction false} PlainTextUnchanged(s: string, level: int)
    requires forall k :: 0 <= k < |s| ==> s[k] != ';' && s[k] != '{' && s[k] != '}'
    ensures PrettyFrom(s, level) == s
    decreases |s|
  {
    if s != [] {
      PlainTextUnchanged(s[1..], level);
      assert s == [s[0]] + s[1..];
    }
  }

  /** `s` without spaces and line breaks. */
  function StripLayout(s: string): string {
    if s == [] then ""
    else if s[0] == ' ' || s[0] == '\n' then StripLayout(s[1..])
    else [s[0]] + StripLayout(s[1..])
  }

  /** Stripping distributes over concatenation. */
  lemma {:induction false} StripLayoutAppend(a: string, b: string)
    ensures StripLayout(a + b) == StripLayout(a) + StripLayout(b)
    decreases |a|
  {
    if a == [] {
      assert a + b == b;
    } else {
      assert (a + b)[0] == a[0] && (a + b)[1..] == a[1..] + b;
      StripLayoutAppend(a[1..], b);
    }
  }

  /** Indentation is all layout. */
  lemma {:induction false} StripIndent(level: int)
    ensures StripLayout(Indent(level)) == ""
    decreases if level <= 0 then 0 else level
  {
    if level > 0 {
      StripIndent(level - 1);
      StripLayoutAppend(Indent(level - 1), "  ");
    }
  }

  /** A piece is its character plus layout. */
  lemma StripPiece(ch: char, level: int)
    ensures StripLayout(Piece(ch, level)) == StripLayout([ch])
  {
    StripIndent(level - 1);
    StripIndent(level);
    StripIndent(level + 1);
    StripLayoutAppend("\n", Indent(level - 1));
    StripLayoutAppend("\n", Indent(level));
    StripLayoutAppend("\n", Indent(level + 1));
    StripLayoutAppend(PieceBefore(ch, level), [ch]);
    StripLayoutAppend(PieceBefore(ch, level) + [ch], PieceAfter(ch, level));
  }

  /** The printer only adds spaces and line breaks: dropping them from input and output gives the same text. */
  lemma {:induction false} PrettyOnlyAddsLayout(s: string, level: int)
    ensures StripLayout(PrettyFrom(s, level)) == StripLayout(s)
    decreases |s|
  {
    if s != [] {
      PrettyOnlyAddsLayout(s[1..], level + Delta(s[0]));
      StripPiece(s[0], level);
      StripLayoutAppend(Piece(s[0], level), PrettyFrom(s[1..], level + Delta(s[0])));
      StripLayoutAppend([s[0]], s[1..]);
      assert [s[0]] + s[1..] == s;
    }
  }
}
