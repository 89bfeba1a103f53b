/** css_delimiters_are_closed in static_syntax.rs, and the grammar it decides. */
module CssDelimiters {
  import opened Base

  predicate IsOpening(c: char) { c in "{[(" }

  predicate IsClosing(c: char) { c in "}])" }

  predicate IsQuote(c: char) { c == '\'' || c == '"' }

  function OpeningOf(c: char): char
    requires IsClosing(c)
  {
    if c == '}' then '{' else if c == ']' then '[' else '('
  }

  function ClosingOf(c: char): char
    requires IsOpening(c)
  {
    if c == '{' then '}' else if c == '[' then ']' else ')'
  }

  // ---- Well-nested words ----

  /** Nothing, or a bracketed part followed by more. */
  datatype Nest = Empty | Around(opening: char, inside: Nest, after: Nest)

  function Letters(n: Nest): string
  {
    match n
    case Empty => ""
    case Around(c, inside, after) =>
      [c] + Letters(inside) + [if IsOpening(c) then ClosingOf(c) else c] + Letters(after)
  }

  predicate UsesBrackets(n: Nest)
  {
    n.Around? ==> IsOpening(n.opening) && UsesBrackets(n.inside) && UsesBrackets(n.after)
  }

  ghost predicate WellNested(word: string)
  {
    exists n :: UsesBrackets(n) && Letters(n) == word
  }

  /** The stack of opening brackets after a word of brackets, or nothing after a mismatch. */
  function Stacked(stack: string, word: string): Option<string>
    decreases |word|
  {
    if word == [] then Some(stack)
    else if IsOpening(word[0]) then Stacked(stack + [word[0]], word[1..])
    else if IsClosing(word[0]) && stack != [] && stack[|stack| - 1] == OpeningOf(word[0]) then
      Stacked(stack[..|stack| - 1], word[1..])
    else None
  }

  lemma {:induction false} StackedAppend(stack: string, word: string, more: string)
    ensures Stacked(stack, word + more) ==
              (match Stacked(stack, word) case None => None case Some(top) => Stacked(top, more))
    decreases |word|
  {
    if word == [] {
      assert word + more == more;
    } else {
      assert (word + more)[1..] == word[1..] + more;
      if IsOpening(word[0]) {
        StackedAppend(stack + [word[0]], word[1..], more);
      } else if stack != [] {
        StackedAppend(stack[..|stack| - 1], word[1..], more);
      }
    }
  }

  lemma LettersAround(c: char, inside: Nest, after: Nest)
    requires IsOpening(c)
    ensures Letters(Around(c, inside, after)) == [c] + (Letters(inside) + ([ClosingOf(c)] + Letters(after)))
  {
  }

  lemma OpenThenClose(stack: string, c: char, more: string)
    requires IsOpening(c)
    ensures Stacked(stack + [c], [ClosingOf(c)] + more) == Stacked(stack, more)
  {
    assert ([ClosingOf(c)] + more)[1..] == more;
    assert (stack + [c])[..|stack|] == stack;
  }

  lemma {:induction false} NestLeavesTheStack(stack: string, n: Nest)
    requires UsesBrackets(n)
    ensures Stacked(stack, Letters(n)) == Some(stack)
    decreases n
  {
    if n.Around? {
      var rest := Letters(n.inside) + ([ClosingOf(n.opening)] + Letters(n.after));
      LettersAround(n.opening, n.inside, n.after);
      assert ([n.opening] + rest)[1..] == rest;
      NestLeavesTheStack(stack + [n.opening], n.inside);
      NestLeavesTheStack(stack, n.after);
      StackedAppend(stack + [n.opening], Letters(n.inside), [ClosingOf(n.opening)] + Letters(n.after));
      OpenThenClose(stack, n.opening, Letters(n.after));
      hide Letters;
    }
  }

  /** What closes a stack: a nest, then the matching bracket, and so on down to the bottom. */
  function Unwound(stack: string, nests: seq<Nest>): string
    requires |nests| == |stack| + 1 && forall c :: c in stack ==> IsOpening(c)
  {
    var k := |stack|;
    if k == 0 then Letters(nests[0])
    else Letters(nests[k]) + [ClosingOf(stack[k - 1])] + Unwound(stack[..k - 1], nests[..k])
  }

  lemma {:induction false} ClosingWordUnwinds(stack: string, word: string) returns (nests: seq<Nest>)
    requires (forall c :: c in stack ==> IsOpening(c)) && Stacked(stack, word) == Some([])
    ensures |nests| == |stack| + 1 && Unwound(stack, nests) == word && forall n :: n in nests ==> UsesBrackets(n)
    decreases |word|
  {
    var k := |stack|;
    if word == [] {
      nests := [Empty];
    } else if IsOpening(word[0]) {
      var deeper := stack + [word[0]];
      var inner := ClosingWordUnwinds(deeper, word[1..]);
      nests := inner[..k] + [Around(word[0], inner[k + 1], inner[k])];
      OpeningUnwinds(stack, word[0], inner);
      assert word == [word[0]] + word[1..];
      assert forall i :: 0 <= i < k ==> nests[i] in inner;
      assert inner[k] in inner && inner[k + 1] in inner;
    } else {
      var outer := ClosingWordUnwinds(stack[..k - 1], word[1..]);
      nests := outer + [Empty];
      assert nests[..k] == outer;
      assert word == [word[0]] + word[1..];
      assert ClosingOf(stack[k - 1]) == word[0];
    }
  }

  lemma UnwoundSplit(stack: string, nests: seq<Nest>)
    requires |nests| == |stack| + 1 && stack != [] && (forall c :: c in stack ==> IsOpening(c))
    ensures var k := |stack|;
            Unwound(stack, nests) == Letters(nests[k]) + [ClosingOf(stack[k - 1])] + Unwound(stack[..k - 1], nests[..k])
  {
  }

  lemma Regroup(a: string, b: string, c: string, d: string)
    ensures a + b + c + d == a + (b + c + d)
  {
  }

  /** Two nests on either side of a closing bracket become one nest around the first. */
  lemma OpeningUnwinds(stack: string, c: char, inner: seq<Nest>)
    requires IsOpening(c) && |inner| == |stack| + 2 && (forall x :: x in stack ==> IsOpening(x))
    ensures Unwound(stack, inner[..|stack|] + [Around(c, inner[|stack| + 1], inner[|stack|])]) ==
              [c] + Unwound(stack + [c], inner)
  {
    var k := |stack|;
    var n := Around(c, inner[k + 1], inner[k]);
    UnwoundSplit(stack + [c], inner);
    hide Unwound, Letters;
    FrontOfAround(c, inner[k + 1], inner[k]);
    AroundUnwinds(stack, inner[..k + 1], n, FrontOf(c, inner[k + 1]));
    assert (stack + [c])[..k] == stack && inner[..k + 1][..k] == inner[..k];
    Regroup([c], Letters(inner[k + 1]), [ClosingOf(c)], Unwound(stack, inner[..k + 1]));
  }

  function FrontOf(c: char, inside: Nest): string
    requires IsOpening(c)
  {
    [c] + Letters(inside) + [ClosingOf(c)]
  }

  lemma FrontOfAround(c: char, inside: Nest, after: Nest)
    requires IsOpening(c)
    ensures Letters(Around(c, inside, after)) == FrontOf(c, inside) + Letters(after)
  {
    LettersAround(c, inside, after);
    hide Letters;
  }

  lemma AroundUnwinds(stack: string, nests: seq<Nest>, n: Nest, front: string)
    requires |nests| == |stack| + 1 && (forall c :: c in stack ==> IsOpening(c))
    requires Letters(n) == front + Letters(nests[|stack|])
    ensures Unwound(stack, nests[..|stack|] + [n]) == front + Unwound(stack, nests)
  {
    var k := |stack|;
    assert (nests[..k] + [n])[..k] == nests[..k];
    if k > 0 {
      UnwoundSplit(stack, nests);
      UnwoundSplit(stack, nests[..k] + [n]);
      hide Unwound, Letters;
      Regroup(front, Letters(nests[k]), [ClosingOf(stack[k - 1])], Unwound(stack[..k - 1], nests[..k]));
    }
  }

  /** The stack machine accepts exactly the well-nested words. */
  lemma StackDecidesNesting(word: string)
    ensures Stacked([], word) == Some([]) <==> WellNested(word)
  {
    if Stacked([], word) == Some([]) {
      var nests := ClosingWordUnwinds([], word);
      assert UsesBrackets(nests[0]) && Letters(nests[0]) == word;
    }
    if WellNested(word) {
      var n :| UsesBrackets(n) && Letters(n) == word;
      NestLeavesTheStack([], n);
    }
  }

  // ---- Comments, strings and escapes ----

  datatype Mode = Top | InComment | InString(quote: char)

  /** What is read first: how many bytes, the mode they lead to, and the bracket among them if any. An
      escape at the very end leads nowhere. */
  function Next(text: string, mode: Mode): Option<(nat, Mode, string)>
    requires text != []
  {
    if mode == InComment then
      if "*/" <= text then Some((2, Top, "")) else Some((1, InComment, ""))
    else if text[0] == '\\' then
      if |text| == 1 then None else Some((2, mode, ""))
    else if mode.InString? then Some((1, if text[0] == mode.quote then Top else mode, ""))
    else if "/*" <= text then Some((2, InComment, ""))
    else if IsQuote(text[0]) then Some((1, InString(text[0]), ""))
    else Some((1, Top, if IsOpening(text[0]) || IsClosing(text[0]) then [text[0]] else ""))
  }

  function Prepended(seen: string, rest: Option<string>): Option<string>
  {
    match rest
    case None => None
    case Some(word) => Some(seen + word)
  }

  /** The brackets that `text`, read from `mode` on, has outside comments, strings and escapes; nothing if
      the text ends inside one of them. */
  function Brackets(text: string, mode: Mode): Option<string>
    decreases |text|
  {
    if text == [] then if mode == Top then Some([]) else None
    else
      match Next(text, mode)
      case None => None
      case Some(step) => Prepended(step.2, Brackets(text[step.0..], step.1))
  }

  ghost predicate IsClosed(text: string)
  {
    Brackets(text, Top).Some? && WellNested(Brackets(text, Top).value)
  }

  /** What the loop still has to read, with an escape pending or not. */
  function Rest(text: string, mode: Mode, escaped: bool): Option<string>
  {
    if !escaped then Brackets(text, mode)
    else if text == [] then None
    else Brackets(text[1..], mode)
  }

  lemma PrependedTwice(seen: string, word: string, rest: Option<string>)
    ensures Prepended(seen, Prepended(word, rest)) == Prepended(seen + word, rest)
    ensures Prepended("", rest) == rest
  {
    if rest.Some? {
      assert seen + (word + rest.value) == seen + word + rest.value;
      assert "" + rest.value == rest.value;
    }
  }

  lemma ReadNext(text: string, index: nat, mode: Mode)
    requires index < |text|
    ensures match Next(text[index..], mode)
            case None => Brackets(text[index..], mode) == None
            case Some(step) => index + step.0 <= |text|
                               && Brackets(text[index..], mode) ==
                                    Prepended(step.2, Brackets(text[index + step.0..], step.1))
  {
    var t := text[index..];
    if Next(t, mode).Some? {
      assert t[Next(t, mode).value.0..] == text[index + Next(t, mode).value.0..];
    }
  }

  /** True exactly when the brackets outside comments, strings and escapes are well nested and the text
      ends outside all three. */
  method CssDelimitersAreClosed(text: string) returns (closed: bool)
    ensures closed <==> IsClosed(text)
  {
    hide Brackets, Stacked, WellNested, Prepended;
    var delimiters: string := [];
    var quote: Option<char> := None;
    var escaped, inComment := false, false;
    var index := 0;
    ghost var seen: string := [];
    assert text[0..] == text && Stacked([], []) == Some([]) by {
      StackOfNothing();
    }
    PrependedTwice("", "", Brackets(text, Top));
    while index < |text|
      invariant index <= |text| && !(inComment && (quote.Some? || escaped))
      invariant Stacked([], seen) == Some(delimiters)
      invariant Brackets(text, Top) == Prepended(seen, Rest(text[index..], ModeOf(inComment, quote), escaped))
    {
      var byte := text[index];
      ghost var mode := ModeOf(inComment, quote);
      ReadNext(text, index, mode);
      assert text[index..][1..] == text[index + 1..] && text[index..][0] == byte;
      assert index + 1 < |text| ==> text[index..][1] == text[index + 1] && text[index + 1..][1..] == text[index + 2..];
      PrependedTwice(seen, "", Rest(text[index..], mode, escaped));
      if inComment {
        if byte == '*' && index + 1 < |text| && text[index + 1] == '/' {
          inComment := false;
          PrependedTwice(seen, "", Brackets(text[index + 2..], Top));
          index := index + 2;
          continue;
        }
        PrependedTwice(seen, "", Brackets(text[index + 1..], InComment));
      } else if quote.Some? {
        if escaped {
          escaped := false;
        } else if byte == '\\' {
          escaped := true;
          if index + 1 < |text| {
            PrependedTwice(seen, "", Brackets(text[index + 2..], mode));
          }
        } else if byte == quote.value {
          quote := None;
          PrependedTwice(seen, "", Brackets(text[index + 1..], Top));
        } else {
          PrependedTwice(seen, "", Brackets(text[index + 1..], mode));
        }
      } else if escaped {
        escaped := false;
      } else if byte == '\\' {
        escaped := true;
        if index + 1 < |text| {
          PrependedTwice(seen, "", Brackets(text[index + 2..], mode));
        }
      } else if byte == '/' && index + 1 < |text| && text[index + 1] == '*' {
        inComment := true;
        PrependedTwice(seen, "", Brackets(text[index + 2..], InComment));
        index := index + 2;
        continue;
      } else if IsQuote(byte) {
        quote := Some(byte);
        PrependedTwice(seen, "", Brackets(text[index + 1..], InString(byte)));
      } else if IsOpening(byte) || IsClosing(byte) {
        PrependedTwice(seen, [byte], Brackets(text[index + 1..], Top));
        StackOneMore(seen, delimiters, byte);
        if IsOpening(byte) {
          delimiters := delimiters + [byte];
        } else if delimiters != [] && delimiters[|delimiters| - 1] == OpeningOf(byte) {
          delimiters := delimiters[..|delimiters| - 1];
        } else {
          MismatchIsFinal(text, seen + [byte], Brackets(text[index + 1..], Top));
          return false;
        }
        seen := seen + [byte];
      } else {
        PrependedTwice(seen, "", Brackets(text[index + 1..], Top));
      }
      index := index + 1;
    }
    EndOfText(text, seen, ModeOf(inComment, quote), escaped);
    StackDecidesNesting(seen);
    return delimiters == [] && quote == None && !inComment && !escaped;
  }

  lemma StackOfNothing()
    ensures Stacked([], []) == Some([])
  {
  }

  lemma StackOneMore(seen: string, stack: string, c: char)
    requires Stacked([], seen) == Some(stack) && (IsOpening(c) || IsClosing(c))
    ensures Stacked([], seen + [c]) == if IsOpening(c) then Some(stack + [c])
                                       else if stack != [] && stack[|stack| - 1] == OpeningOf(c)
                                               then Some(stack[..|stack| - 1])
                                       else None
  {
    StackedAppend([], seen, [c]);
    assert [c][1..] == [];
  }

  lemma EndOfText(text: string, seen: string, mode: Mode, escaped: bool)
    requires Brackets(text, Top) == Prepended(seen, Rest(text[|text|..], mode, escaped))
    ensures Brackets(text, Top) == if mode == Top && !escaped then Some(seen) else None
  {
    assert text[|text|..] == [] && seen + [] == seen;
  }

  function ModeOf(inComment: bool, quote: Option<char>): Mode
  {
    if inComment then InComment else if quote.Some? then InString(quote.value) else Top
  }

  lemma MismatchIsFinal(text: string, seen: string, rest: Option<string>)
    requires Brackets(text, Top) == Prepended(seen, rest) && Stacked([], seen) == None
    ensures !IsClosed(text)
  {
    if rest.Some? {
      StackedAppend([], seen, rest.value);
      StackDecidesNesting(seen + rest.value);
    }
  }

  // ---- Closure ----

  lemma NextAppend(text: string, more: string, mode: Mode)
    requires text != [] && Next(text, mode).Some? && !("*" <= more) && Brackets(text, mode).Some?
    ensures Next(text + more, mode) == Next(text, mode) && Next(text, mode).value.0 <= |text|
  {
    var longer := text + more;
    assert longer[0] == text[0] && (|text| > 1 ==> longer[1] == text[1]);
    assert |text| == 1 ==> text[1..] == [];
  }

  lemma {:induction false} BracketsAppend(text: string, more: string, mode: Mode)
    requires Brackets(text, mode).Some? && Brackets(more, Top).Some? && !("*" <= more)
    ensures Brackets(text + more, mode) == Some(Brackets(text, mode).value + Brackets(more, Top).value)
    decreases |text|
  {
    if text == [] {
      assert text + more == more && [] + Brackets(more, Top).value == Brackets(more, Top).value;
    } else {
      NextAppend(text, more, mode);
      var step := Next(text, mode).value;
      assert (text + more)[step.0..] == text[step.0..] + more;
      BracketsAppend(text[step.0..], more, step.1);
      PrependedTwice(step.2, Brackets(text[step.0..], step.1).value, Brackets(more, Top));
    }
  }

  lemma OneClosing(c: char)
    requires IsOpening(c)
    ensures Brackets([ClosingOf(c)], Top) == Some([ClosingOf(c)])
  {
    var close := [ClosingOf(c)];
    assert Next(close, Top) == Some((1, Top, close));
    assert close[1..] == [] && close + [] == close;
    assert Brackets([], Top) == Some([]);
  }

  lemma OpeningFirst(c: char, text: string)
    requires IsOpening(c)
    ensures Brackets([c] + text, Top) == Prepended([c], Brackets(text, Top))
  {
    assert Next([c] + text, Top) == Some((1, Top, [c]));
    assert ([c] + text)[1..] == text;
  }

  /** Wrapping a closed text in a matching pair keeps it closed. */
  lemma WrappingKeepsClosed(text: string, opening: char)
    requires IsClosed(text) && IsOpening(opening)
    ensures IsClosed([opening] + text + [ClosingOf(opening)])
  {
    var close := [ClosingOf(opening)];
    OneClosing(opening);
    BracketsAppend(text, close, Top);
    OpeningFirst(opening, text + close);
    var inside := Brackets(text, Top).value;
    hide Brackets;
    assert [opening] + text + close == [opening] + (text + close);
    var n :| UsesBrackets(n) && Letters(n) == inside;
    LettersAround(opening, n, Empty);
    assert Letters(Empty) == "" && inside + (close + "") == inside + close;
    assert UsesBrackets(Around(opening, n, Empty));
  }

  // ---- The same as a grammar of pieces ----

  /** `units` are the characters of a string: plain ones, and escaped pairs. */
  datatype Piece =
    | Comment(body: string)
    | Quoted(quote: char, units: seq<string>)
    | Escape(escaped: char)
    | Sign(sign: char)

  function Flat(units: seq<string>): string
  {
    if units == [] then "" else units[0] + Flat(units[1..])
  }

  function Shown(p: Piece): string
  {
    match p
    case Comment(body) => "/*" + body + "*/"
    case Quoted(quote, units) => [quote] + Flat(units) + [quote]
    case Escape(c) => ['\\', c]
    case Sign(c) => [c]
  }

  function ShownAll(pieces: seq<Piece>): string
  {
    if pieces == [] then "" else Shown(pieces[0]) + ShownAll(pieces[1..])
  }

  function SignsOf(pieces: seq<Piece>): string
  {
    if pieces == [] then ""
    else
      (if pieces[0].Sign? && (IsOpening(pieces[0].sign) || IsClosing(pieces[0].sign)) then [pieces[0].sign] else "")
      + SignsOf(pieces[1..])
  }

  predicate UnitOk(unit: string, quote: char)
  {
    (|unit| == 1 && unit[0] != quote && unit[0] != '\\') || (|unit| == 2 && unit[0] == '\\')
  }

  ghost predicate BodyOk(body: string)
  {
    forall i :: 0 <= i < |body| ==> !("*/" <= (body + "*/")[i..])
  }

  ghost predicate PieceOk(p: Piece)
  {
    match p
    case Comment(body) => BodyOk(body)
    case Quoted(quote, units) => IsQuote(quote) && forall u :: u in units ==> UnitOk(u, quote)
    case Escape(_) => true
    case Sign(c) => c != '\\' && !IsQuote(c)
  }

  /** Each piece is well formed, and no slash and star outside the pieces join to open a comment. */
  ghost predicate PiecesOk(pieces: seq<Piece>)
  {
    && (forall p :: p in pieces ==> PieceOk(p))
    && forall i, j :: 0 <= i && j == i + 1 < |pieces| ==> !(pieces[i] == Sign('/') && pieces[j] == Sign('*'))
  }

  lemma {:induction false} CommentIsRead(body: string, rest: string)
    requires BodyOk(body)
    ensures Brackets(body + "*/" + rest, InComment) == Brackets(rest, Top)
    decreases |body|
  {
    var text := body + "*/" + rest;
    if body == [] {
      assert text[2..] == rest;
      PrependedTwice("", "", Brackets(rest, Top));
    } else {
      assert (body + "*/")[0..] == body + "*/";
      assert text[1..] == body[1..] + "*/" + rest;
      forall i | 0 <= i < |body| - 1
        ensures !("*/" <= (body[1..] + "*/")[i..])
      {
        assert (body + "*/")[i + 1..] == (body[1..] + "*/")[i..];
      }
      CommentIsRead(body[1..], rest);
      PrependedTwice("", "", Brackets(text[1..], InComment));
    }
  }

  lemma {:induction false} StringIsRead(units: seq<string>, quote: char, rest: string)
    requires IsQuote(quote) && forall u :: u in units ==> UnitOk(u, quote)
    ensures Brackets(Flat(units) + [quote] + rest, InString(quote)) == Brackets(rest, Top)
    decreases |units|
  {
    var text := Flat(units) + [quote] + rest;
    if units == [] {
      assert text[1..] == rest;
      PrependedTwice("", "", Brackets(rest, Top));
    } else {
      assert UnitOk(units[0], quote);
      assert text[|units[0]|..] == Flat(units[1..]) + [quote] + rest;
      assert text[0] == units[0][0];
      StringIsRead(units[1..], quote, rest);
      PrependedTwice("", "", Brackets(text[|units[0]|..], InString(quote)));
    }
  }

  lemma OpensComment(text: string)
    ensures "/*" <= text <==> |text| > 1 && text[0] == '/' && text[1] == '*'
  {
    assert |text| > 1 ==> text[..2] == [text[0], text[1]];
  }

  lemma SignIsRead(c: char, rest: string)
    requires c != '\\' && !IsQuote(c) && !(c == '/' && "*" <= rest)
    ensures Brackets([c] + rest, Top) == Prepended(SignsOf([Sign(c)]), Brackets(rest, Top))
  {
    var text := [c] + rest;
    assert text[1..] == rest && (rest != [] ==> text[1] == rest[0]);
    OpensComment(text);
    assert [Sign(c)][1..] == [] && [c] + "" == [c];
    hide Brackets;
    ReadNext(text, 0, Top);
    assert text[0..] == text;
  }

  lemma SkippedIsRead(text: string, n: nat, mode: Mode)
    requires n <= |text| && text != [] && Next(text, Top) == Some((n, mode, ""))
    ensures Brackets(text, Top) == Brackets(text[n..], mode)
  {
    PrependedTwice("", "", Brackets(text[n..], mode));
  }

  lemma PieceIsRead(p: Piece, rest: string)
    requires PieceOk(p) && !(p == Sign('/') && "*" <= rest)
    ensures Brackets(Shown(p) + rest, Top) == Prepended(SignsOf([p]), Brackets(rest, Top))
  {
    hide Brackets, Flat, BodyOk, UnitOk;
    PrependedTwice("", "", Brackets(rest, Top));
    match p
    case Comment(body) => WholeCommentIsRead(body, rest);
    case Quoted(quote, units) => WholeStringIsRead(quote, units, rest);
    case Escape(c) => EscapeIsRead(c, rest);
    case Sign(c) => SignIsRead(c, rest);
  }

  lemma WholeCommentIsRead(body: string, rest: string)
    requires BodyOk(body)
    ensures Brackets("/*" + body + "*/" + rest, Top) == Brackets(rest, Top)
  {
    hide Brackets, BodyOk;
    var text := "/*" + body + "*/" + rest;
    SkippedIsRead(text, 2, InComment);
    assert text[2..] == body + "*/" + rest;
    CommentIsRead(body, rest);
  }

  lemma WholeStringIsRead(quote: char, units: seq<string>, rest: string)
    requires IsQuote(quote) && forall u :: u in units ==> UnitOk(u, quote)
    ensures Brackets([quote] + Flat(units) + [quote] + rest, Top) == Brackets(rest, Top)
  {
    hide Brackets, Flat, UnitOk;
    var text := [quote] + Flat(units) + [quote] + rest;
    SkippedIsRead(text, 1, InString(quote));
    assert text[1..] == Flat(units) + [quote] + rest;
    StringIsRead(units, quote, rest);
  }

  lemma EscapeIsRead(c: char, rest: string)
    ensures Brackets(['\\', c] + rest, Top) == Brackets(rest, Top)
  {
    hide Brackets;
    var text := ['\\', c] + rest;
    SkippedIsRead(text, 2, Top);
    assert text[2..] == rest;
  }

  lemma {:induction false} PiecesAreRead(pieces: seq<Piece>)
    requires PiecesOk(pieces)
    ensures Brackets(ShownAll(pieces), Top) == Some(SignsOf(pieces))
    decreases |pieces|
  {
    if pieces != [] {
      var rest := ShownAll(pieces[1..]);
      PiecesAreRead(pieces[1..]);
      if |pieces| > 1 {
        assert rest[0] == Shown(pieces[1])[0];
        assert PieceOk(pieces[1]) && !(pieces[0] == Sign('/') && pieces[1] == Sign('*'));
      }
      PieceIsRead(pieces[0], rest);
      SignsSplit(pieces);
      hide Brackets;
    }
  }

  lemma SignsSplit(pieces: seq<Piece>)
    requires pieces != []
    ensures SignsOf(pieces) == SignsOf([pieces[0]]) + SignsOf(pieces[1..])
  {
    assert [pieces[0]][1..] == [] && SignsOf([pieces[0]][1..]) == "";
  }

  lemma LongerBody(c: char, body: string, rest: string, text: string)
    requires BodyOk(body) && text == [c] + body + "*/" + rest && !("*/" <= text)
    ensures BodyOk([c] + body)
  {
    var longer := [c] + body;
    forall i | 0 <= i < |longer|
      ensures !("*/" <= (longer + "*/")[i..])
    {
      if i == 0 {
        assert (longer + "*/")[0..] + rest == text;
      } else {
        assert (longer + "*/")[i..] == (body + "*/")[i - 1..];
      }
    }
  }

  lemma {:induction false} CommentSplits(text: string) returns (body: string, rest: string)
    requires Brackets(text, InComment).Some?
    ensures text == body + "*/" + rest && BodyOk(body) && Brackets(rest, Top).Some?
    decreases |text|
  {
    if "*/" <= text {
      body, rest := "", text[2..];
    } else {
      var shorter;
      shorter, rest := CommentSplits(text[1..]);
      body := [text[0]] + shorter;
      hide Brackets;
      LongerBody(text[0], shorter, rest, text);
    }
  }

  lemma {:induction false} StringSplits(text: string, quote: char) returns (units: seq<string>, rest: string)
    requires IsQuote(quote) && Brackets(text, InString(quote)).Some?
    ensures text == Flat(units) + [quote] + rest && (forall u :: u in units ==> UnitOk(u, quote))
            && Brackets(rest, Top).Some?
    decreases |text|
  {
    if text[0] != '\\' && text[0] == quote {
      units, rest := [], text[1..];
    } else {
      var n := if text[0] == '\\' then 2 else 1;
      var shorter;
      shorter, rest := StringSplits(text[n..], quote);
      units := [text[..n]] + shorter;
      assert units[1..] == shorter && text == text[..n] + text[n..];
    }
  }

  lemma {:induction false} TextSplits(text: string) returns (pieces: seq<Piece>)
    requires Brackets(text, Top).Some?
    ensures PiecesOk(pieces) && ShownAll(pieces) == text
    decreases |text|
  {
    if text == [] {
      pieces := [];
    } else {
      var first, rest;
      if text[0] == '\\' {
        first, rest := Escape(text[1]), text[2..];
      } else if "/*" <= text {
        var body;
        body, rest := CommentSplits(text[2..]);
        first := Comment(body);
      } else if IsQuote(text[0]) {
        var units;
        units, rest := StringSplits(text[1..], text[0]);
        first := Quoted(text[0], units);
      } else {
        first, rest := Sign(text[0]), text[1..];
      }
      assert Shown(first) + rest == text && Brackets(rest, Top).Some?;
      var later := TextSplits(rest);
      pieces := [first] + later;
      assert pieces[1..] == later;
      SplitsStayApart(first, later, text);
    }
  }

  lemma SplitsStayApart(first: Piece, later: seq<Piece>, text: string)
    requires PieceOk(first) && PiecesOk(later) && Shown(first) + ShownAll(later) == text
             && (first == Sign('/') ==> !("/*" <= text))
    ensures PiecesOk([first] + later)
  {
    var pieces := [first] + later;
    assert later != [] && later[0] == Sign('*') ==> ShownAll(later)[0] == '*';
    assert first == Sign('/') ==> text == ['/'] + ShownAll(later);
    forall i, j | 0 <= i && j == i + 1 < |pieces|
      ensures !(pieces[i] == Sign('/') && pieces[j] == Sign('*'))
    {
      assert i > 0 ==> pieces[i] == later[i - 1] && pieces[j] == later[i];
    }
  }

  /** The checker's language: the texts that are made of comments, strings, escapes and other signs, none
      of them left open, whose brackets outside the first three are well nested. */
  lemma ClosedIffGrammatical(text: string)
    ensures IsClosed(text) <==>
              exists pieces :: PiecesOk(pieces) && ShownAll(pieces) == text && WellNested(SignsOf(pieces))
  {
    hide WellNested, Brackets, SignsOf, PiecesOk, ShownAll;
    if IsClosed(text) {
      var pieces := TextSplits(text);
      PiecesAreRead(pieces);
      assert PiecesOk(pieces) && ShownAll(pieces) == text && WellNested(SignsOf(pieces));
    }
    if pieces :| PiecesOk(pieces) && ShownAll(pieces) == text && WellNested(SignsOf(pieces)) {
      PiecesAreRead(pieces);
    }
  }
}
