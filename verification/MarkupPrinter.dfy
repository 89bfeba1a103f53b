/** The markup scanner undoes a printer of well-formed markup. */
module MarkupPrinter {
  import opened Base
  import opened Paths
  import opened Whitespace
  import opened MarkupSyntax
  import opened MarkupScanner

  /** In quotes, bare, or not at all. */
  datatype PrintedValue = Quoted(quote: char, text: string) | Bare(text: string) | Missing

  /** White space before the name and on both sides of the equals sign. */
  datatype PrintedAttribute = PrintedAttribute(before: string, name: string, gap: string, pad: string,
                                               value: PrintedValue)

  /** What stands before the '>' of a start tag. */
  datatype Close = Close(blank: string, slash: bool)

  datatype Item =
    | Prose(text: string)
    | Remark(body: string)
    | Section(body: string)
    | Instruction(body: string)
    | Declaration(text: string)
    | Oddity(text: string)  // no tag at all
    | EndTag(pad: string, name: string, junk: string)
    | StartTag(name: string, attributes: seq<PrintedAttribute>, close: Close)
    | RawElement(name: string, attributes: seq<PrintedAttribute>, close: Close, body: string, end: Close)

  function PrintValue(a: PrintedAttribute): string
  {
    match a.value
    case Quoted(quote, text) => a.gap + "=" + a.pad + ([quote] + text + [quote])
    case Bare(text) => a.gap + "=" + a.pad + text
    case Missing => ""
  }

  function PrintAttribute(a: PrintedAttribute): string { a.before + a.name + PrintValue(a) }

  function PrintAttributes(attributes: seq<PrintedAttribute>): string
  {
    if attributes == [] then "" else PrintAttribute(attributes[0]) + PrintAttributes(attributes[1..])
  }

  function PrintClose(close: Close): string { close.blank + if close.slash then "/" else "" }

  function PrintStart(name: string, attributes: seq<PrintedAttribute>, close: Close): string
  {
    "<" + name + PrintAttributes(attributes) + PrintClose(close) + ">"
  }

  function Print(item: Item): string
  {
    match item
    case Prose(text) => text
    case Remark(body) => "<!--" + body + "-->"
    case Section(body) => "<![CDATA[" + body + "]]>"
    case Instruction(body) => "<?" + body + "?>"
    case Declaration(text) => "<" + text + ">"
    case Oddity(text) => "<" + text + ">"
    case EndTag(pad, name, junk) => "</" + pad + name + junk + ">"
    case StartTag(name, attributes, close) => PrintStart(name, attributes, close)
    case RawElement(name, attributes, close, body, end) =>
      PrintStart(name, attributes, close) + body + "</" + name + PrintClose(end) + ">"
  }

  function PrintAll(items: seq<Item>): string
  {
    if items == [] then "" else Print(items[0]) + PrintAll(items[1..])
  }

  predicate IsBlank(s: string) { forall c :: c in s ==> IsAsciiWhitespace(c) }

  /** No white space starts anywhere in the text. */
  predicate IsUnspaced(s: string) { forall i :: 0 <= i < |s| ==> SpaceAt(s, i) == 0 }

  /** Quoted values may hold anything but their own quote, '>' and '<' included; bare ones no white space, none
      of the brackets and quotes, and no equals sign. */
  predicate ValueOk(value: PrintedValue)
  {
    match value
    case Quoted(quote, text) => IsQuote(quote) && quote !in text
    case Bare(text) => text != "" && IsUnspaced(text) && forall c :: c in text ==> c !in "<>'\"`="
    case Missing => true
  }

  predicate AttributeOk(a: PrintedAttribute)
  {
    && a.before != "" && IsBlank(a.before) && IsBlank(a.gap) && IsBlank(a.pad) && ValueOk(a.value)
    && a.name != "" && IsUnspaced(a.name)
    && forall i :: 0 <= i < |a.name| ==> a.name[i] != '=' && !BadInName(a.name, i)
  }

  /** A slash may follow the name or a quoted value at once; a bare value would swallow it. */
  predicate CloseOk(attributes: seq<PrintedAttribute>, close: Close)
  {
    && IsBlank(close.blank)
    && (close.slash && close.blank == "" && attributes != [] ==> attributes[|attributes| - 1].value.Quoted?)
  }

  predicate StartOk(name: string, attributes: seq<PrintedAttribute>, close: Close)
  {
    IsName(name) && CloseOk(attributes, close) && forall a :: a in attributes ==> AttributeOk(a)
  }

  /** Up to a '>' that no quote hides. */
  predicate IsOpen(text: string) { forall c :: c in text ==> !IsQuote(c) && c != '>' }

  /** What may follow the name in an end tag. */
  predicate JunkOk(junk: string) { IsOpen(junk) && (junk != "" ==> IsAsciiWhitespace(junk[0]) || junk[0] == '/') }

  /** Every start of the element's own end tag in its text is that of a longer name. */
  predicate OnlyLookAlikes(body: string, name: string)
  {
    forall i :: 0 <= i <= |body| - |name| - 2 && "</" + name <= AsciiLower(body)[i..] ==>
      IsLookAlike(body, i + 2 + |name|)
  }

  predicate ItemOk(item: Item, html: bool)
  {
    match item
    case Prose(text) => '<' !in text
    case Remark(body) => Find(body, "-->") == None
    case Section(body) => Find(body, "]]>") == None
    case Instruction(body) => !html && Find(body, "?>") == None
    case Declaration(text) =>
      IsOpen(text) && text != "" && !StartsWith(text, "!--") && !StartsWith(text, "![CDATA[")
        && (text[0] == '!' || (html && text[0] == '?'))
    case Oddity(text) =>
      IsOpen(text) && (text != "" ==>
        text[0] < 128 as char && !IsAsciiSpace(text[0]) && !IsNameByte(text[0]) && text[0] !in "/!?")
    case EndTag(pad, name, junk) => IsBlank(pad) && IsName(name) && JunkOk(junk)
    case StartTag(name, attributes, close) =>
      StartOk(name, attributes, close) && !IsRawText(AsciiLower(name), html)
        && !(html && AsciiLower(name) == "plaintext")
    case RawElement(name, attributes, close, body, end) =>
      StartOk(name, attributes, close) && IsRawText(AsciiLower(name), html) && IsBlank(end.blank)
        && OnlyLookAlikes(body, AsciiLower(name))
  }

  function ValueOf(value: PrintedValue): string
  {
    match value
    case Quoted(_, text) => text
    case Bare(text) => text
    case Missing => ""
  }

  function AttributesOf(attributes: seq<PrintedAttribute>): seq<Attribute>
  {
    if attributes == [] then []
    else [(AsciiLower(attributes[0].name), ValueOf(attributes[0].value))] + AttributesOf(attributes[1..])
  }

  function StartOf(name: string, attributes: seq<PrintedAttribute>): Tag
  {
    Tag(AsciiLower(name), false, AttributesOf(attributes), None, false)
  }

  /** The tags of an item: the text of a style is kept, a script with a comment opener is marked. */
  function TagsOf(item: Item): seq<Tag>
  {
    match item
    case EndTag(_, name, _) => [Tag(AsciiLower(name), true, [], None, false)]
    case StartTag(name, attributes, _) => [StartOf(name, attributes)]
    case RawElement(name, attributes, _, body, _) =>
      var css := if AsciiLower(name) == "style" then Some(body) else None;
      [Tag(AsciiLower(name), false, AttributesOf(attributes), css,
           AsciiLower(name) == "script" && exists i :: 0 <= i <= |body| && "<!--" <= body[i..])]
    case _ => []
  }

  function TagsOfAll(items: seq<Item>): seq<Tag>
  {
    if items == [] then [] else TagsOf(items[0]) + TagsOfAll(items[1..])
  }

  // ---- Searching ----

  lemma {:induction false} FindIs(s: string, pattern: string, i: nat)
    requires pattern != "" && i <= |s| && pattern <= s[i..] && forall j :: 0 <= j < i ==> !(pattern <= s[j..])
    ensures Find(s, pattern) == Some(i)
    decreases i
  {
    assert s[0..] == s;
    if i > 0 {
      forall j | 0 <= j < i - 1
        ensures !(pattern <= s[1..][j..])
      {
        assert s[1..][j..] == s[j + 1..];
      }
      assert s[1..][i - 1..] == s[i..];
      FindIs(s[1..], pattern, i - 1);
    }
  }

  /** An occurrence before the end of `body` lies within it or overlaps the pattern with itself. */
  lemma EarlyOccurrence(body: string, pattern: string, rest: string, j: nat)
    requires j < |body| && pattern <= (body + pattern + rest)[j..]
    ensures j + |pattern| <= |body| ==> pattern <= body[j..]
    ensures j + |pattern| > |body| ==> pattern[..j + |pattern| - |body|] == pattern[|body| - j..]
  {
    var s := body + pattern + rest;
    if j + |pattern| <= |body| {
      assert body[j..][..|pattern|] == s[j..][..|pattern|];
    } else {
      assert pattern[|body| - j..] == s[j..][|body| - j..|pattern|];
      assert s[j..][|body| - j..|pattern|] == s[|body|..][..j + |pattern| - |body|];
    }
  }

  /** The pattern occurs first where it was put, because it cannot overlap the text before it. */
  lemma FindsItsEnd(body: string, pattern: string, rest: string)
    requires pattern != "" && Find(body, pattern) == None
    requires forall k :: 0 < k < |pattern| ==> pattern[..k] != pattern[|pattern| - k..]
    ensures Find(body + pattern + rest, pattern) == Some(|body|)
  {
    var s := body + pattern + rest;
    forall j | 0 <= j < |body|
      ensures !(pattern <= s[j..])
    {
      if pattern <= s[j..] {
        EarlyOccurrence(body, pattern, rest, j);
        FoundIsFirst(body, pattern, j);
      }
    }
    assert s[|body|..] == pattern + rest;
    FindIs(s, pattern, |body|);
  }

  /** A pattern whose first character does not recur cannot overlap itself. */
  lemma UniqueFirst(pattern: string)
    requires pattern != "" && pattern[0] !in pattern[1..]
    ensures forall k :: 0 < k < |pattern| ==> pattern[..k] != pattern[|pattern| - k..]
  {
    forall k | 0 < k < |pattern|
      ensures pattern[..k] != pattern[|pattern| - k..]
    {
      assert pattern[..k][0] == pattern[0] && pattern[|pattern| - k..][0] == pattern[1..][|pattern| - k - 1];
    }
  }

  // ---- The end of a tag ----

  lemma {:induction false} UnquotedIsPassed(part: string, rest: string)
    requires forall c :: c in part ==> !IsQuote(c) && c != '>'
    ensures TagEnd(part + rest, None) == Shifted(|part|, TagEnd(rest, None))
    decreases |part|
  {
    if part == [] {
      assert part + rest == rest;
    } else {
      var s := part + rest;
      assert part[0] in part && s[0] == part[0] && s[1..] == part[1..] + rest;
      UnquotedIsPassed(part[1..], rest);
      assert TagEnd(s, None) == Later(TagEnd(s[1..], None));
      hide TagEnd;
    }
  }

  lemma {:induction false} QuotedIsPassed(value: string, quote: char, rest: string)
    requires quote !in value
    ensures TagEnd(value + [quote] + rest, Some(quote)) == Shifted(|value| + 1, TagEnd(rest, None))
    decreases |value|
  {
    var s := value + [quote] + rest;
    if value == [] {
      assert s[1..] == rest;
    } else {
      assert value[0] in value && s[1..] == value[1..] + [quote] + rest;
      QuotedIsPassed(value[1..], quote, rest);
    }
  }

  lemma Regroup(a: string, b: string, c: string)
    ensures a + b + c == a + (b + c)
  {
  }

  lemma ShiftedTwice(m: nat, n: nat, i: Option<nat>)
    ensures Shifted(m, Shifted(n, i)) == Shifted(m + n, i)
  {
  }

  lemma BlankIsOpen(blank: string)
    requires IsBlank(blank)
    ensures IsOpen(blank) && forall c :: c in blank ==> IsAsciiSpace(c)
  {
  }

  lemma NameIsOpen(a: PrintedAttribute)
    requires AttributeOk(a)
    ensures IsOpen(a.before + a.name) && IsOpen(a.gap + "=" + a.pad)
  {
    BlankIsOpen(a.before);
    BlankIsOpen(a.gap);
    BlankIsOpen(a.pad);
    forall c | c in a.name
      ensures !IsQuote(c) && c != '>'
    {
      var i :| 0 <= i < |a.name| && a.name[i] == c;
      assert !BadInName(a.name, i);
    }
  }

  lemma QuotedIsSkipped(quote: char, text: string, rest: string)
    requires IsQuote(quote) && quote !in text
    ensures TagEnd([quote] + text + [quote] + rest, None) == Shifted(|text| + 2, TagEnd(rest, None))
  {
    var inner := text + [quote] + rest;
    assert [quote] + text + [quote] + rest == [quote] + inner;
    assert ([quote] + inner)[1..] == inner;
    QuotedIsPassed(text, quote, rest);
  }

  lemma ValueIsPassed(a: PrintedAttribute, rest: string)
    requires AttributeOk(a)
    ensures TagEnd(PrintValue(a) + rest, None) == Shifted(|PrintValue(a)|, TagEnd(rest, None))
  {
    hide TagEnd;
    NameIsOpen(a);
    var lead := a.gap + "=" + a.pad;
    match a.value {
      case Quoted(quote, text) =>
        QuotedIsSkipped(quote, text, rest);
        UnquotedIsPassed(lead, [quote] + text + [quote] + rest);
        hide AttributeOk, IsOpen;
        assert PrintValue(a) + rest == lead + ([quote] + text + [quote] + rest);
        ShiftedTwice(|lead|, |text| + 2, TagEnd(rest, None));
      case Bare(text) =>
        UnquotedIsPassed(lead + text, rest);
      case Missing =>
        assert "" + rest == rest;
    }
  }

  lemma AttributeIsPassed(a: PrintedAttribute, rest: string)
    requires AttributeOk(a)
    ensures TagEnd(PrintAttribute(a) + rest, None) == Shifted(|PrintAttribute(a)|, TagEnd(rest, None))
  {
    NameIsOpen(a);
    ValueIsPassed(a, rest);
    UnquotedIsPassed(a.before + a.name, PrintValue(a) + rest);
    hide TagEnd, AttributeOk, PrintValue;
    Regroup(a.before + a.name, PrintValue(a), rest);
    ShiftedTwice(|a.before + a.name|, |PrintValue(a)|, TagEnd(rest, None));
  }

  lemma {:induction false} AttributesArePassed(attributes: seq<PrintedAttribute>, rest: string)
    requires forall a :: a in attributes ==> AttributeOk(a)
    ensures TagEnd(PrintAttributes(attributes) + rest, None) ==
              Shifted(|PrintAttributes(attributes)|, TagEnd(rest, None))
    decreases |attributes|
  {
    hide TagEnd, AttributeOk, PrintAttribute;
    if attributes == [] {
      assert "" + rest == rest;
    } else {
      var more := PrintAttributes(attributes[1..]);
      AttributesArePassed(attributes[1..], rest);
      AttributeIsPassed(attributes[0], more + rest);
      Regroup(PrintAttribute(attributes[0]), more, rest);
      ShiftedTwice(|PrintAttribute(attributes[0])|, |more|, TagEnd(rest, None));
    }
  }

  lemma NameIsPlain(name: string)
    requires IsName(name)
    ensures forall c :: c in name ==>
              !IsQuote(c) && c != '>' && c != '<' && c != '/' && c != '!' && c != '?' && c < 128 as char
                && !IsAsciiSpace(c)
  {
  }

  /** The inside of a start tag. */
  function Inside(name: string, attributes: seq<PrintedAttribute>, close: Close): string
  {
    name + PrintAttributes(attributes) + PrintClose(close)
  }

  lemma TagEndsAfter(name: string, attributes: seq<PrintedAttribute>, close: Close, rest: string)
    requires StartOk(name, attributes, close)
    ensures TagEnd(Inside(name, attributes, close) + ">" + rest, None) == Some(|Inside(name, attributes, close)|)
  {
    hide AttributeOk, PrintAttributes, TagEnd;
    var printed := PrintAttributes(attributes);
    var closed := PrintClose(close) + (">" + rest);
    assert IsOpen(PrintClose(close)) by { BlankIsOpen(close.blank); }
    OpenEnds(PrintClose(close), rest);
    AttributesArePassed(attributes, closed);
    assert TagEnd(name + (printed + closed), None) == Shifted(|name|, TagEnd(printed + closed, None)) by {
      NameIsPlain(name);
      UnquotedIsPassed(name, printed + closed);
    }
    hide PrintClose, IsOpen;
    assert Inside(name, attributes, close) + ">" + rest == name + (printed + closed);
  }

  // ---- Words and white space ----

  /** A word that something in ASCII follows, or nothing. */
  lemma UnspacedInFront(word: string, more: string, i: nat)
    requires i < |word| && SpaceAt(word, i) == 0 && (more != "" ==> more[0] < 128 as char)
    ensures SpaceAt(word + more, i) == 0
  {
    var s := word + more;
    assert forall k :: 0 <= k < |word| ==> s[k] == word[k];
    assert more != "" ==> s[|word|] == more[0];
  }

  predicate Stops(more: string, stops: string)
  {
    more != "" ==> more[0] < 128 as char && (IsAsciiSpace(more[0]) || more[0] in stops)
  }

  lemma {:induction false} WordIsBefore(word: string, more: string, stops: string)
    requires IsUnspaced(word) && (forall c :: c in word ==> c !in stops) && Stops(more, stops)
    ensures Before(word + more, stops) == |word|
    decreases |word|
  {
    var s := word + more;
    if word == "" {
      assert s == more;
    } else {
      UnspacedInFront(word, more, 0);
      assert word[0] in word && s[0] == word[0] && s[1..] == word[1..] + more;
      forall i | 0 <= i < |word| - 1
        ensures SpaceAt(word[1..], i) == 0
      {
        assert SpaceAt(word, i + 1) == 0;
      }
      WordIsBefore(word[1..], more, stops);
      hide SpaceAt;
    }
  }

  lemma {:induction false} BlankIsTrimmed(blank: string, s: string)
    requires IsBlank(blank) && (s != "" ==> SpaceAt(s, 0) == 0)
    ensures TrimStart(blank + s) == s
    decreases |blank|
  {
    if blank == "" {
      assert blank + s == s;
    } else {
      assert blank[0] in blank && (blank + s)[1..] == blank[1..] + s;
      BlankIsTrimmed(blank[1..], s);
    }
  }

  predicate IsSolid(c: char) { c < 128 as char && !IsAsciiSpace(c) }

  lemma SolidStart(s: string)
    requires s != "" && IsSolid(s[0])
    ensures SpaceAt(s, 0) == 0 && TrimStart(s) == s
  {
  }

  // ---- Attributes ----

  /** What may follow an attribute. */
  predicate MayFollow(a: PrintedAttribute, rest: string)
  {
    rest == "" || IsAsciiWhitespace(rest[0]) || a.value.Quoted?
  }

  lemma ValueStops(a: PrintedAttribute, rest: string)
    requires AttributeOk(a) && MayFollow(a, rest)
    ensures Stops(PrintValue(a) + rest, "=")
  {
    if a.value != Missing {
      assert a.gap != "" ==> a.gap[0] in a.gap;
    }
  }

  lemma NameIsUnstopped(a: PrintedAttribute)
    requires AttributeOk(a)
    ensures forall c :: c in a.name ==> c !in "="
    ensures !exists i :: 0 <= i < |a.name| && BadInName(a.name, i)
    ensures a.name[0] != '/' && a.name[0] != '='
  {
    assert !BadInName(a.name, 0);
  }

  /** A name, up to white space, an equals sign, or the end. */
  lemma NameIsRead(before: string, name: string, more: string)
    requires AttributeOk(PrintedAttribute(before, name, "", "", Missing)) && Stops(more, "=")
    ensures TrimStart(before + (name + more)) == name + more
    ensures AttributeName(name + more) == Some(Cut(AsciiLower(name), TrimStart(more)))
  {
    var a := PrintedAttribute(before, name, "", "", Missing);
    NameIsUnstopped(a);
    UnspacedInFront(name, more, 0);
    BlankIsTrimmed(before, name + more);
    WordIsBefore(name, more, "=");
    hide Before, AsciiLower, TrimStart, SpaceAt, BadInName, AttributeOk;
    assert (name + more)[..|name|] == name && (name + more)[|name|..] == more;
  }

  lemma NameIsCut(a: PrintedAttribute, rest: string)
    requires AttributeOk(a) && MayFollow(a, rest)
    ensures TrimStart(PrintAttribute(a) + rest) == a.name + (PrintValue(a) + rest)
    ensures AttributeName(a.name + (PrintValue(a) + rest)) ==
              Some(Cut(AsciiLower(a.name), TrimStart(PrintValue(a) + rest)))
  {
    ValueStops(a, rest);
    NameIsRead(a.before, a.name, PrintValue(a) + rest);
    hide AsciiLower, TrimStart, PrintValue, AttributeName;
    assert PrintAttribute(a) + rest == a.before + (a.name + (PrintValue(a) + rest));
  }

  lemma EqualsIsTrimmed(gap: string, more: string)
    requires IsBlank(gap)
    ensures TrimStart(gap + ("=" + more)) == "=" + more && ("=" + more)[1..] == more && StartsWith("=" + more, "=")
  {
    SolidStart("=" + more);
    BlankIsTrimmed(gap, "=" + more);
    assert ("=" + more)[..1] == "=";
  }

  lemma ValueIsFound(value: string, quote: char, more: string)
    requires quote !in value
    ensures var inner := value + [quote] + more;
            Find(inner, [quote]) == Some(|value|) && inner[..|value|] == value && inner[|value| + 1..] == more
  {
    var inner := value + [quote] + more;
    forall j | 0 <= j < |value|
      ensures !([quote] <= inner[j..])
    {
      assert inner[j..][0] == value[j];
    }
    assert inner[|value|..] == [quote] + more;
    FindIs(inner, [quote], |value|);
  }

  lemma QuotedIsCut(a: PrintedAttribute, quote: char, text: string, rest: string)
    requires AttributeOk(a) && a.value == Quoted(quote, text)
    ensures AttributeValue(TrimStart(PrintValue(a) + rest)) == Some(Cut(text, rest))
  {
    var inner := text + [quote] + rest;
    var quoted := [quote] + inner;
    assert PrintValue(a) + rest == a.gap + ("=" + (a.pad + quoted));
    EqualsIsTrimmed(a.gap, a.pad + quoted);
    SolidStart(quoted);
    BlankIsTrimmed(a.pad, quoted);
    ValueIsFound(text, quote, rest);
    hide Find, TrimStart, StartsWith, PrintValue;
    assert quoted[1..] == inner && quoted[0] == quote;
  }

  lemma BareIsCut(a: PrintedAttribute, text: string, rest: string)
    requires AttributeOk(a) && MayFollow(a, rest) && a.value == Bare(text)
    ensures AttributeValue(TrimStart(PrintValue(a) + rest)) == Some(Cut(text, rest))
  {
    var input := text + rest;
    assert PrintValue(a) + rest == a.gap + ("=" + (a.pad + input));
    EqualsIsTrimmed(a.gap, a.pad + input);
    UnspacedInFront(text, rest, 0);
    BlankIsTrimmed(a.pad, input);
    WordIsBefore(text, rest, "");
    assert text[0] in text && input[0] == text[0];
    hide Find, TrimStart, StartsWith, PrintValue, Before, SpaceAt;
    assert input[..|text|] == text && input[|text|..] == rest;
    assert !exists i :: 0 <= i < |text| && input[i] in "<>'\"`=";
  }

  /** What remains of the inside of a tag once its end is trimmed. */
  function Kept(close: Close): string { if close.slash then close.blank + "/" else "" }

  lemma CloseEndsAttributes(attributes: seq<PrintedAttribute>, close: Close)
    requires CloseOk(attributes, close)
    ensures Attributes(Kept(close)) == Some([]) && TailOk(attributes, Kept(close))
  {
    if close.slash {
      SolidStart("/");
      BlankIsTrimmed(close.blank, "/");
      if close.blank != "" {
        assert close.blank[0] in close.blank;
      }
    }
  }

  /** What may follow some attributes without being taken for a part of the last one. */
  predicate TailOk(attributes: seq<PrintedAttribute>, tail: string)
  {
    && (attributes != [] ==> MayFollow(attributes[|attributes| - 1], tail))
    && !StartsWith(TrimStart(tail), "=")
  }

  lemma TrimmedTwice(s: string)
    ensures Attributes(TrimStart(s)) == Attributes(s)
  {
    assert TrimStart(TrimStart(s)) == TrimStart(s);
    hide TrimStart, AttributeName, AttributeValue;
  }

  /** After an attribute without a value nothing looks like a value. */
  lemma NothingIsValue(attributes: seq<PrintedAttribute>, tail: string)
    requires TailOk(attributes, tail) && forall a :: a in attributes ==> AttributeOk(a)
    ensures !StartsWith(TrimStart(PrintAttributes(attributes) + tail), "=")
  {
    hide AttributeOk;
    if attributes == [] {
      assert PrintAttributes([]) + tail == tail;
    } else {
      var a := attributes[0];
      var rest := PrintAttributes(attributes[1..]) + tail;
      RestMayFollow(attributes, tail);
      NameIsUnstopped(a);
      NameIsCut(a, rest);
      hide TrimStart, PrintValue, PrintAttribute;
      assert PrintAttributes(attributes) + tail == PrintAttribute(a) + rest;
    }
  }

  lemma RestMayFollow(attributes: seq<PrintedAttribute>, tail: string)
    requires attributes != [] && TailOk(attributes, tail) && forall a :: a in attributes ==> AttributeOk(a)
    ensures MayFollow(attributes[0], PrintAttributes(attributes[1..]) + tail)
    ensures TailOk(attributes[1..], tail) && AttributeOk(attributes[0])
    ensures attributes[0].name != ""
  {
    if |attributes| == 1 {
      assert PrintAttributes(attributes[1..]) + tail == tail;
    } else {
      var next := attributes[1];
      assert AttributeOk(next) && next.before[0] in next.before;
      assert PrintAttributes(attributes[1..])[0] == next.before[0];
    }
  }

  lemma AttributeIsCut(a: PrintedAttribute, rest: string)
    requires AttributeOk(a) && MayFollow(a, rest)
    requires a.value == Missing ==> !StartsWith(TrimStart(rest), "=")
    ensures AttributeValue(TrimStart(PrintValue(a) + rest)) ==
              Some(Cut(ValueOf(a.value), if a.value == Missing then TrimStart(rest) else rest))
  {
    match a.value {
      case Quoted(quote, text) => QuotedIsCut(a, quote, text, rest);
      case Bare(text) => BareIsCut(a, text, rest);
      case Missing => assert PrintValue(a) + rest == rest;
    }
  }

  /** One attribute, put together from what its parts read as. */
  lemma AttributeIsRead(s: string, trimmed: string, name: Cut<string>, value: Cut<string>)
    requires TrimStart(s) == trimmed && trimmed != "" && trimmed != "/"
    requires AttributeName(trimmed) == Some(name) && AttributeValue(name.rest) == Some(value)
    ensures Attributes(s) == Following([(name.item, value.item)], Attributes(value.rest))
  {
    hide TrimStart, AttributeName, AttributeValue;
  }

  lemma AttributeIsRefused(s: string, trimmed: string, name: Cut<string>)
    requires TrimStart(s) == trimmed && trimmed != "" && trimmed != "/"
    requires AttributeName(trimmed) == Some(name) && AttributeValue(name.rest) == None
    ensures Attributes(s) == None
  {
    hide TrimStart, AttributeName, AttributeValue;
  }

  /** Printed attributes are read back exactly, and then what follows them. */
  lemma {:induction false} AttributesAreParsed(attributes: seq<PrintedAttribute>, tail: string)
    requires TailOk(attributes, tail) && forall a :: a in attributes ==> AttributeOk(a)
    ensures Attributes(PrintAttributes(attributes) + tail) == Following(AttributesOf(attributes), Attributes(tail))
    decreases |attributes|
  {
    hide AttributeName, AttributeValue, TrimStart, AttributeOk, PrintValue, PrintAttribute, MayFollow, StartsWith;
    hide TailOk, Attributes;
    if attributes == [] {
      FollowingMore([], ("", ""), Attributes(tail));
      assert "" + tail == tail;
    } else {
      hide Following, ValueOf;
      var a := attributes[0];
      var rest := PrintAttributes(attributes[1..]) + tail;
      RestMayFollow(attributes, tail);
      AttributesAreParsed(attributes[1..], tail);
      NothingIsValue(attributes[1..], tail);
      AttributeIsParsed(a, rest);
      assert PrintAttributes(attributes) + tail == PrintAttribute(a) + rest;
      OneMore((AsciiLower(a.name), ValueOf(a.value)), AttributesOf(attributes[1..]), Attributes(tail));
    }
  }

  /** The first printed attribute is read back, and then what follows it. */
  lemma AttributeIsParsed(a: PrintedAttribute, rest: string)
    requires AttributeOk(a) && MayFollow(a, rest) && !StartsWith(TrimStart(rest), "=")
    ensures Attributes(PrintAttribute(a) + rest) ==
              Following([(AsciiLower(a.name), ValueOf(a.value))], Attributes(rest))
  {
    assert a.name != "";
    hide AttributeName, AttributeValue, TrimStart, AttributeOk, PrintValue, PrintAttribute, MayFollow, StartsWith;
    hide Attributes, Following, ValueOf;
    NameIsCut(a, rest);
    AttributeIsCut(a, rest);
    TrimmedTwice(rest);
    NameIsUnstopped(a);
    var trimmed := a.name + (PrintValue(a) + rest);
    assert trimmed[0] == a.name[0];
    AttributeIsRead(PrintAttribute(a) + rest, trimmed, Cut(AsciiLower(a.name), TrimStart(PrintValue(a) + rest)),
        Cut(ValueOf(a.value), if a.value == Missing then TrimStart(rest) else rest));
  }

  lemma OneMore(x: Attribute, done: seq<Attribute>, rest: Option<seq<Attribute>>)
    ensures Following([x], Following(done, rest)) == Following([x] + done, rest)
  {
    if rest.Some? {
      assert [x] + (done + rest.value) == [x] + done + rest.value;
    }
  }

  /** An attribute that is not one: a name with a character that no name may have, or a bare value with one
      that no bare value may have. */
  datatype Blunder = BadName(before: string, name: string) | BadValue(before: string, name: string, text: string)

  function PrintBlunder(blunder: Blunder): string
  {
    match blunder
    case BadName(before, name) => before + name
    case BadValue(before, name, text) => before + name + "=" + text
  }

  predicate IsBlunder(blunder: Blunder)
  {
    match blunder
    case BadName(before, name) =>
      && before != "" && IsBlank(before) && name != "" && name != "/" && IsUnspaced(name) && '=' !in name
      && IsSolid(name[|name| - 1]) && IsOpen(name) && ('/' in name || '<' in name || '`' in name)
    case BadValue(before, name, text) =>
      && AttributeOk(PrintedAttribute(before, name, "", "", Missing))
      && text != "" && IsUnspaced(text) && IsSolid(text[|text| - 1]) && IsOpen(text)
      && ('=' in text || '<' in text || '`' in text)
  }

  lemma BadNameIsRefused(before: string, name: string)
    requires IsBlunder(BadName(before, name))
    ensures Attributes(before + name) == None && !StartsWith(TrimStart(before + name), "=")
    ensures IsAsciiWhitespace((before + name)[0])
  {
    BlankIsTrimmed(before, name);
    WordIsBefore(name, "", "=");
    assert before[0] in before && name + "" == name && name[..|name|] == name;
    hide Before, TrimStart, SpaceAt, AttributeValue;
    var i :| 0 <= i < |name| && (name[i] == '/' || name[i] == '<' || name[i] == '`');
    assert BadInName(name, i);
  }

  lemma BadBareValue(text: string)
    requires text != "" && IsUnspaced(text) && IsOpen(text) && ('=' in text || '<' in text || '`' in text)
    ensures TrimStart("=" + text) == "=" + text && AttributeValue("=" + text) == None
  {
    EqualsIsTrimmed("", text);
    assert "" + ("=" + text) == "=" + text;
    WordIsBefore(text, "", "");
    assert text + "" == text && SpaceAt(text, 0) == 0 && text[0] in text;
    assert TrimStart(text) == text;
    hide Before, TrimStart, SpaceAt, StartsWith, Find;
    var i :| 0 <= i < |text| && (text[i] == '=' || text[i] == '<' || text[i] == '`');
    assert text[i] in "<>'\"`=";
  }

  lemma BadValueIsRefused(before: string, name: string, text: string)
    requires IsBlunder(BadValue(before, name, text))
    ensures var s := before + name + "=" + text;
            Attributes(s) == None && !StartsWith(TrimStart(s), "=") && IsAsciiWhitespace(s[0])
  {
    hide TrimStart, SpaceAt, BadInName, AsciiLower, AttributeName, AttributeValue, Attributes;
    var s, word := before + name + "=" + text, name + ("=" + text);
    assert before[0] in before;
    BadBareValue(text);
    NameIsRead(before, name, "=" + text);
    NameIsUnstopped(PrintedAttribute(before, name, "", "", Missing));
    assert s == before + word && word[0] == name[0];
    AttributeIsRefused(s, word, Cut(AsciiLower(name), "=" + text));
  }

  // ---- Tags ----

  lemma {:induction false} BlankEndIsTrimmed(word: string, blank: string)
    requires word != "" && SpaceBefore(word) == 0 && IsBlank(blank)
    ensures TrimEnd(word + blank) == word
    decreases |blank|
  {
    var s := word + blank;
    if blank == "" {
      assert s == word;
    } else {
      var n := |blank| - 1;
      assert blank[n] in blank && s[|s| - 1] == blank[n] && s[..|s| - 1] == word + blank[..n];
      BlankEndIsTrimmed(word, blank[..n]);
    }
  }

  lemma UnspacedEnd(front: string, word: string)
    requires word != "" && IsUnspaced(word) && front != "" && front[|front| - 1] < 128 as char
    ensures SpaceBefore(front + word) == 0
  {
    var s := front + word;
    var n := SpaceBefore(s);
    assert s[|front| - 1] == front[|front| - 1];
    assert forall i :: 0 <= i < |word| ==> s[|front| + i] == word[i];
    assert SpaceAt(word, |word| - 1) == 0;
    assert |word| > 1 ==> SpaceAt(word, |word| - 2) == 0;
    assert |word| > 2 ==> SpaceAt(word, |word| - 3) == 0;
  }

  lemma SolidEnd(s: string)
    requires s != "" && IsSolid(s[|s| - 1])
    ensures SpaceBefore(s) == 0 && TrimEnd(s) == s
  {
  }

  lemma AttributeEnds(front: string, a: PrintedAttribute)
    requires AttributeOk(a)
    ensures PrintAttribute(a) != "" && SpaceBefore(front + PrintAttribute(a)) == 0
  {
    hide SpaceBefore, IsUnspaced;
    BlankIsOpen(a.before);
    var s := front + PrintAttribute(a);
    match a.value {
      case Quoted(quote, text) => SolidEnd(s);
      case Bare(text) => BareValueEnds(front, a, text);
      case Missing =>
        assert a.before[|a.before| - 1] in a.before;
        assert s == (front + a.before) + a.name;
        UnspacedEnd(front + a.before, a.name);
    }
  }

  lemma BareValueEnds(front: string, a: PrintedAttribute, text: string)
    requires AttributeOk(a) && a.value == Bare(text)
    ensures SpaceBefore(front + PrintAttribute(a)) == 0
  {
    hide SpaceBefore, IsUnspaced;
    BlankIsOpen(a.pad);
    var lead := front + a.before + a.name + a.gap + "=" + a.pad;
    assert a.pad != "" ==> a.pad[|a.pad| - 1] in a.pad;
    assert front + PrintAttribute(a) == lead + text;
    UnspacedEnd(lead, text);
  }

  lemma {:induction false} AttributesEnd(front: string, attributes: seq<PrintedAttribute>)
    requires attributes != [] && forall a :: a in attributes ==> AttributeOk(a)
    ensures PrintAttributes(attributes) != "" && SpaceBefore(front + PrintAttributes(attributes)) == 0
    decreases |attributes|
  {
    hide SpaceBefore, AttributeOk, PrintAttribute;
    var lead := front + PrintAttribute(attributes[0]);
    assert front + PrintAttributes(attributes) == lead + PrintAttributes(attributes[1..]);
    AttributeEnds(front, attributes[0]);
    if |attributes| == 1 {
      assert lead + "" == lead;
    } else {
      AttributesEnd(lead, attributes[1..]);
    }
  }

  lemma LowerIsName(name: string)
    requires IsName(name)
    ensures IsName(AsciiLower(name))
  {
    var lower := AsciiLower(name);
    forall c | c in lower
      ensures IsNameByte(c)
    {
      var i :| 0 <= i < |name| && lower[i] == c;
      assert name[i] in name;
    }
  }

  lemma NameEnds(name: string)
    requires IsName(name)
    ensures IsSolid(name[0]) && IsSolid(name[|name| - 1]) && SpaceBefore(name) == 0 && IsUnspaced(name)
    ensures forall c :: c in name ==> c !in "/>"
  {
    NameIsPlain(name);
    assert name[0] in name && name[|name| - 1] in name;
    forall i | 0 <= i < |name|
      ensures SpaceAt(name, i) == 0
    {
      assert name[i] in name;
    }
  }

  lemma InsideIsTrimmed(name: string, attributes: seq<PrintedAttribute>, close: Close)
    requires StartOk(name, attributes, close)
    ensures Trim(Inside(name, attributes, close)) == name + (PrintAttributes(attributes) + Kept(close))
  {
    NameEnds(name);
    hide AttributeOk, PrintAttributes;
    var word := name + PrintAttributes(attributes);
    assert SpaceBefore(word) == 0 by {
      if attributes == [] {
        NoAttributes();
        assert word == name;
      } else {
        AttributesEnd(name, attributes);
      }
    }
    var inside := Inside(name, attributes, close);
    SolidStart(inside);
    if close.slash {
      SolidEnd(inside);
      assert inside == word + Kept(close);
    } else {
      BlankEndIsTrimmed(word, close.blank);
      assert inside == word + close.blank && word + "" == word;
    }
    Regroup(name, PrintAttributes(attributes), Kept(close));
  }

  lemma NoAttributes()
    ensures PrintAttributes([]) == ""
  {
  }

  /** After the name come white space, a slash, or nothing. */
  lemma NameStops(name: string, attributes: seq<PrintedAttribute>, close: Close)
    requires StartOk(name, attributes, close)
    ensures Stops(PrintAttributes(attributes) + Kept(close), "/>")
  {
    if attributes == [] {
      CloseEndsAttributes(attributes, close);
      BlankIsOpen(close.blank);
      assert "" + Kept(close) == Kept(close);
    } else {
      assert AttributeOk(attributes[0]) && attributes[0].before[0] in attributes[0].before;
      assert (PrintAttributes(attributes) + Kept(close))[0] == attributes[0].before[0];
    }
  }

  lemma FollowingNothing(done: seq<Attribute>)
    ensures Following(done, Some([])) == Some(done)
  {
    assert done + [] == done;
  }

  lemma StartTagIsParsed(name: string, attributes: seq<PrintedAttribute>, close: Close)
    requires StartOk(name, attributes, close)
    ensures TagBody(Trim(Inside(name, attributes, close))) ==
              Ok(Some(Tag(AsciiLower(name), false, AttributesOf(attributes), None, false)))
  {
    var more := PrintAttributes(attributes) + Kept(close);
    InsideIsTrimmed(name, attributes, close);
    NameEnds(name);
    NameIsPlain(name);
    assert name[0] in name;
    SolidStart(name + more);
    NameStops(name, attributes, close);
    WordIsBefore(name, more, "/>");
    LowerIsName(name);
    CloseEndsAttributes(attributes, close);
    AttributesAreParsed(attributes, Kept(close));
    FollowingNothing(AttributesOf(attributes));
    hide Attributes, PrintAttributes, AttributesOf, Before, Trim, TrimStart, AttributeOk, AsciiLower, Kept;
    assert (name + more)[..|name|] == name && (name + more)[|name|..] == more;
  }

  /** Trimming at the end stops at a word in ASCII. */
  lemma {:induction false} EndIsTrimmed(word: string, junk: string) returns (k: nat)
    requires word != "" && IsSolid(word[|word| - 1])
    ensures k <= |junk| && TrimEnd(word + junk) == word + junk[..k]
    decreases |junk|
  {
    var s := word + junk;
    if junk == "" {
      k := 0;
      assert s == word && word + "" == word;
      SolidEnd(word);
    } else if SpaceBefore(s) == 0 {
      k := |junk|;
      assert junk[..k] == junk;
    } else {
      var n := SpaceBefore(s);
      SpaceIsShort(word, junk);
      assert s[..|s| - n] == word + junk[..|junk| - n];
      k := EndIsTrimmed(word, junk[..|junk| - n]);
      assert junk[..|junk| - n][..k] == junk[..k];
    }
  }

  lemma SpaceIsShort(word: string, junk: string)
    requires word != "" && junk != "" && word[|word| - 1] < 128 as char
    ensures SpaceBefore(word + junk) <= |junk|
  {
    var s := word + junk;
    assert s[|word| - 1] == word[|word| - 1];
    assert forall i :: 0 <= i < |junk| ==> s[|word| + i] == junk[i];
  }

  /** White space after the slash and anything after the name are ignored. */
  lemma EndTagIsParsed(pad: string, name: string, junk: string)
    requires IsBlank(pad) && IsName(name) && JunkOk(junk)
    ensures TagBody(Trim("/" + pad + name + junk)) == Ok(Some(Tag(AsciiLower(name), true, [], None, false)))
  {
    hide TagBody, TrimEnd, TrimStart, SpaceAt;
    var word := "/" + pad + name;
    assert IsSolid(word[|word| - 1]) by { NameEnds(name); }
    SolidStart(word + junk);
    var k := EndIsTrimmed(word, junk);
    var more := junk[..k];
    assert more != "" ==> more[0] == junk[0];
    assert word + more == "/" + (pad + (name + more));
    TrimmedEndIsParsed(pad, name, more);
  }

  lemma TrimmedEndIsParsed(pad: string, name: string, more: string)
    requires IsBlank(pad) && IsName(name) && (more != "" ==> IsAsciiWhitespace(more[0]) || more[0] == '/')
    ensures TagBody("/" + (pad + (name + more))) == Ok(Some(Tag(AsciiLower(name), true, [], None, false)))
  {
    NameEnds(name);
    var body := pad + (name + more);
    assert ("/" + body)[1..] == body;
    SolidStart(name + more);
    BlankIsTrimmed(pad, name + more);
    WordIsBefore(name, more, "/>");
    LowerIsName(name);
    hide Before, Trim, TrimStart, TrimEnd, AsciiLower, Attributes;
    assert (name + more)[..|name|] == name;
  }

  // ---- Items ----

  lemma NotSpecial(s: string)
    requires |s| > 1 && s[0] == '<' && s[1] != '!' && s[1] != '?'
    ensures forall html :: AtMarkup(s, html) == AtTag(s, html)
  {
    PrefixDiffers(s, "<!--");
    PrefixDiffers(s, "<![CDATA[");
    PrefixDiffers(s, "<?");
  }

  lemma PrefixDiffers(s: string, start: string)
    requires |s| > 1 && |start| > 1 && s[1] != start[1]
    ensures !StartsWith(s, start)
  {
  }

  /** Anything without a quote or a '>' goes on up to the next '>'. */
  lemma OpenEnds(text: string, rest: string)
    requires IsOpen(text)
    ensures TagEnd(text + (">" + rest), None) == Some(|text|)
  {
    UnquotedIsPassed(text, ">" + rest);
    assert TagEnd(">" + rest, None) == Some(0);
  }

  /** A tag, put together from what its parts read as. */
  lemma TagIsRead(s: string, n: nat, tag: Tag, after: string, html: bool)
    requires |s| > 1 && s[0] == '<' && s[1] != '!' && s[1] != '?'
    requires TagEnd(s[1..], None) == Some(n) && TagBody(Trim(s[1..1 + n])) == Ok(Some(tag)) && s[n + 2..] == after
    ensures AtMarkup(s, html) == Advanced(n + 2, OfTag(tag, after, html))
  {
    NotSpecial(s);
    hide AtMarkup, TagEnd, TagBody, Trim, OfTag;
  }

  lemma EndIsOpen(pad: string, name: string, junk: string)
    requires IsBlank(pad) && IsName(name) && JunkOk(junk)
    ensures IsOpen("/" + pad + name + junk)
  {
    BlankIsOpen(pad);
    NameIsPlain(name);
  }

  lemma EndShape(pad: string, name: string, junk: string, rest: string)
    ensures var inside := "/" + pad + name + junk;
            var s := Print(EndTag(pad, name, junk)) + rest;
            && |s| > 1 && s[0] == '<' && s[1] == '/' && s[1..] == inside + (">" + rest)
            && s[1..1 + |inside|] == inside && s[|inside| + 2..] == rest
            && |Print(EndTag(pad, name, junk))| == |inside| + 2
  {
    var inside := "/" + pad + name + junk;
    var s := Print(EndTag(pad, name, junk)) + rest;
    assert s == "<" + (inside + (">" + rest));
  }

  lemma EndTagIsScanned(pad: string, name: string, junk: string, rest: string, html: bool)
    requires IsBlank(pad) && IsName(name) && JunkOk(junk)
    ensures var item := EndTag(pad, name, junk);
            AtMarkup(Print(item) + rest, html) == Ok(Stride(TagsOf(item), |Print(item)|))
  {
    hide AtMarkup, TagEnd, TagBody, Trim, AsciiLower, IsName, IsOpen, JunkOk, Print, IsBlank;
    var inside := "/" + pad + name + junk;
    EndIsOpen(pad, name, junk);
    OpenEnds(inside, rest);
    EndTagIsParsed(pad, name, junk);
    EndShape(pad, name, junk, rest);
    TagIsRead(Print(EndTag(pad, name, junk)) + rest, |inside|, Tag(AsciiLower(name), true, [], None, false), rest,
        html);
  }

  /** Up to its '>', a start tag reads as its name and attributes. */
  lemma StartIsRead(name: string, attributes: seq<PrintedAttribute>, close: Close, rest: string)
    requires StartOk(name, attributes, close)
    ensures var inside := Inside(name, attributes, close);
            var s := PrintStart(name, attributes, close) + rest;
            && |s| > 1 && s[0] == '<' && s[1] != '!' && s[1] != '?' && |s| == |inside| + 2 + |rest|
            && TagEnd(s[1..], None) == Some(|inside|) && s[1..1 + |inside|] == inside && s[|inside| + 2..] == rest
  {
    hide AttributeOk, PrintAttributes;
    var inside := Inside(name, attributes, close);
    var s := PrintStart(name, attributes, close) + rest;
    NameIsPlain(name);
    assert name[0] in name && s[1] == name[0];
    assert s == "<" + (inside + ">" + rest);
    assert s[1..] == inside + ">" + rest;
    TagEndsAfter(name, attributes, close, rest);
    hide TagEnd;
  }

  /** A printed start tag is recognised; what becomes of it depends on what follows. */
  lemma StartIsTag(name: string, attributes: seq<PrintedAttribute>, close: Close, rest: string, html: bool)
    requires StartOk(name, attributes, close)
    ensures AtMarkup(PrintStart(name, attributes, close) + rest, html) ==
              Advanced(|PrintStart(name, attributes, close)|, OfTag(StartOf(name, attributes), rest, html))
  {
    hide StartOk, PrintAttributes, AttributesOf, AtMarkup, TagEnd, TagBody, Trim, AsciiLower, OfTag, Advanced;
    StartIsRead(name, attributes, close, rest);
    StartTagIsParsed(name, attributes, close);
    var inside := Inside(name, attributes, close);
    assert |PrintStart(name, attributes, close)| == |inside| + 2;
    TagIsRead(PrintStart(name, attributes, close) + rest, |inside|, StartOf(name, attributes), rest, html);
  }

  lemma StartTagIsScanned(name: string, attributes: seq<PrintedAttribute>, close: Close, rest: string, html: bool)
    requires ItemOk(StartTag(name, attributes, close), html)
    ensures var item := StartTag(name, attributes, close);
            AtMarkup(Print(item) + rest, html) == Ok(Stride(TagsOf(item), |Print(item)|))
  {
    hide StartOk, PrintStart, AttributesOf, AtMarkup;
    StartIsTag(name, attributes, close, rest, html);
    hide AsciiLower, IsRawText;
  }

  // ---- Raw text ----

  lemma LowerOfConcatenation(a: string, b: string)
    ensures AsciiLower(a + b) == AsciiLower(a) + AsciiLower(b)
  {
  }

  /** The end tag of an element with raw text. */
  function PrintEnd(name: string, end: Close): string { "</" + name + PrintClose(end) + ">" }

  /** Raw text, its end tag, and the rest. */
  function ClosedBy(body: string, name: string, end: Close, rest: string): (r: string)
    ensures |body| <= |r|
  {
    body + (PrintEnd(name, end) + rest)
  }

  lemma LowerClosing(name: string)
    requires IsName(name)
    ensures AsciiLower("</" + name) == "</" + AsciiLower(name)
    ensures forall k :: 0 < k < |name| + 2 ==>
              ("</" + AsciiLower(name))[..k] != ("</" + AsciiLower(name))[|name| + 2 - k..]
  {
    var pattern := "</" + AsciiLower(name);
    LowerIsName(name);
    NameIsPlain(AsciiLower(name));
    assert pattern[1..] == "/" + AsciiLower(name);
    UniqueFirst(pattern);
    LowerOfConcatenation("</", name);
    assert AsciiLower("</") == "</";
  }

  lemma TailShape(name: string, body: string, end: Close, rest: string)
    ensures var tail := ClosedBy(body, name, end, rest);
            var inside := "/" + name + PrintClose(end);
            && |tail| == |body| + |inside| + 2 + |rest| && tail[..|body|] == body
            && tail[|body| + 1..] == inside + (">" + rest) && tail[|body| + 1..|body| + 1 + |inside|] == inside
            && tail[|body|..] == "</" + name + (PrintClose(end) + ">" + rest)
            && |PrintEnd(name, end)| == |inside| + 2
  {
    var inside := "/" + name + PrintClose(end);
    var close := PrintEnd(name, end) + rest;
    var tail := body + close;
    assert tail[|body|..] == close && close == "<" + inside + (">" + rest);
    assert tail[|body| + 1..] == tail[|body|..][1..];
    assert tail[|body| + 1..][..|inside|] == inside;
  }

  lemma LowerTail(name: string, body: string, end: Close, rest: string)
    requires IsName(name)
    ensures var tail := ClosedBy(body, name, end, rest);
            AsciiLower(tail) == AsciiLower(body) + ("</" + AsciiLower(name)) + AsciiLower(PrintClose(end) + ">" + rest)
  {
    TailShape(name, body, end, rest);
    var tail := ClosedBy(body, name, end, rest);
    LowerClosing(name);
    LowerOfConcatenation(body, tail[|body|..]);
    LowerOfConcatenation("</" + name, PrintClose(end) + ">" + rest);
    hide AsciiLower;
    assert tail == body + tail[|body|..];
    Regroup(AsciiLower(body), "</" + AsciiLower(name), AsciiLower(PrintClose(end) + ">" + rest));
  }

  lemma ClosingIsClean(name: string, end: Close)
    requires IsName(name) && IsBlank(end.blank)
    ensures ClosesCleanly("/" + name + PrintClose(end), AsciiLower(name))
  {
    var word := "/" + name;
    var closing := word + PrintClose(end);
    NameEnds(name);
    SolidStart(closing);
    SolidEnd(word);
    if end.slash {
      SolidEnd(closing);
      SolidStart("/");
      BlankIsTrimmed(end.blank, "/");
      SolidEnd("/");
    } else {
      BlankEndIsTrimmed(word, end.blank);
      assert closing == word + end.blank;
    }
    LowerOfConcatenation("/", name);
    assert AsciiLower("/") == "/" && |AsciiLower(name)| == |name|;
    var body := Trim(closing);
    hide AsciiLower, TrimStart, TrimEnd;
    assert body[..|name| + 1] == word && body[|name| + 1..] == Kept(end);
    assert Trim("") == "" by {
      NothingIsTrimmed();
    }
  }

  lemma NothingIsTrimmed()
    ensures Trim("") == ""
  {
  }

  lemma EndIsEnded(name: string, body: string, end: Close, rest: string)
    requires IsBlank(end.blank)
    ensures !IsLookAlike(ClosedBy(body, name, end, rest), |body| + 2 + |name|)
  {
    TailShape(name, body, end, rest);
    var tail := ClosedBy(body, name, end, rest);
    assert end.blank != "" ==> end.blank[0] in end.blank;
    assert tail[|body|..][2 + |name|] == (PrintClose(end) + ">" + rest)[0];
  }

  lemma RawEndIsOpen(name: string, end: Close)
    requires IsName(name) && IsBlank(end.blank)
    ensures IsOpen("/" + name + PrintClose(end))
  {
    NameIsPlain(name);
    BlankIsOpen(end.blank);
  }

  lemma ClosesAt(name: string, body: string, end: Close, rest: string)
    requires IsName(name) && IsBlank(end.blank)
    ensures var tail := ClosedBy(body, name, end, rest);
            && |body| < |tail|
            && ClosingAt(tail, |body|, AsciiLower(name)) == Ok((|body|, |body| + |PrintEnd(name, end)|))
  {
    hide TagEnd, ClosesCleanly, AsciiLower, IsName, Trim, ClosedBy, PrintEnd, PrintClose, IsOpen, IsBlank;
    var tail := ClosedBy(body, name, end, rest);
    var inside := "/" + name + PrintClose(end);
    TailShape(name, body, end, rest);
    ClosingIsClean(name, end);
    RawEndIsOpen(name, end);
    OpenEnds(inside, rest);
    ClosingIsFound(tail, |body|, |inside|, AsciiLower(name));
  }

  lemma ClosingIsFound(tail: string, at: nat, n: nat, name: string)
    requires at < |tail| && TagEnd(tail[at + 1..], None) == Some(n)
    requires at + 1 + n <= |tail| && ClosesCleanly(tail[at + 1..at + 1 + n], name)
    ensures ClosingAt(tail, at, name) == Ok((at, at + n + 2))
  {
    hide TagEnd, ClosesCleanly;
  }

  /** An occurrence before the end tag lies inside the text, so it is that of a longer name. */
  lemma EarlierIsLookAlike(name: string, body: string, end: Close, rest: string, i: nat)
    requires IsName(name) && OnlyLookAlikes(body, AsciiLower(name)) && i < |body|
    requires "</" + AsciiLower(name) <= AsciiLower(ClosedBy(body, name, end, rest))[i..]
    ensures i + 2 + |name| < |body| && IsLookAlike(ClosedBy(body, name, end, rest), i + 2 + |name|)
  {
    var pattern := "</" + AsciiLower(name);
    LowerTail(name, body, end, rest);
    LowerClosing(name);
    assert |AsciiLower(name)| == |name| && |AsciiLower(body)| == |body|;
    EarlyOccurrence(AsciiLower(body), pattern, AsciiLower(PrintClose(end) + ">" + rest), i);
    hide AsciiLower;
    assert IsLookAlike(body, i + 2 + |name|);
    assert ClosedBy(body, name, end, rest)[i + 2 + |name|] == body[i + 2 + |name|];
  }

  lemma OwnEndIsThere(name: string, body: string, end: Close, rest: string)
    requires IsName(name)
    ensures "</" + AsciiLower(name) <= AsciiLower(ClosedBy(body, name, end, rest))[|body|..]
  {
    LowerTail(name, body, end, rest);
    assert |AsciiLower(body)| == |body|;
    hide AsciiLower;
  }

  lemma FoundNoLater(s: string, pattern: string, from: nat, at: nat)
    requires pattern != "" && from <= at <= |s| && pattern <= s[at..]
    ensures var found := Find(s[from..], pattern);
            found.Some? && from + found.value <= at && pattern <= s[from + found.value..]
  {
    hide Find;
    assert s[from..][at - from..] == s[at..];
    FoundIsFirst(s[from..], pattern, at - from);
    var found := Find(s[from..], pattern);
    if found.Some? {
      FoundIsFirst(s[from..], pattern, found.value);
      assert s[from..][found.value..] == s[from + found.value..];
    }
  }

  /** Raw text is read up to the element's own end tag; longer names that begin like it are passed over. */
  lemma {:induction false} RawTextIsRead(name: string, body: string, end: Close, rest: string, from: nat)
    requires IsName(name) && IsBlank(end.blank) && OnlyLookAlikes(body, AsciiLower(name)) && from <= |body|
    ensures RawText(ClosedBy(body, name, end, rest), from, AsciiLower(name)) ==
              Ok((|body|, |body| + |PrintEnd(name, end)|))
    decreases |body| - from
  {
    var tail := ClosedBy(body, name, end, rest);
    var lower, pattern := AsciiLower(tail), "</" + AsciiLower(name);
    hide RawText, ClosingAt, IsLookAlike, Find, AsciiLower, IsName, ClosedBy, OnlyLookAlikes, PrintEnd, IsBlank;
    OwnEndIsThere(name, body, end, rest);
    FoundNoLater(lower, pattern, from, |body|);
    var i := from + Find(lower[from..], pattern).value;
    if i < |body| {
      EarlierIsLookAlike(name, body, end, rest, i);
      RawTextIsRead(name, body, end, rest, i + 2 + |name|);
    } else {
      EndIsEnded(name, body, end, rest);
      ClosesAt(name, body, end, rest);
    }
    RawTextStep(tail, from, AsciiLower(name));
  }

  lemma RawIsRead(tag: Tag, after: string, raw: (nat, nat), body: string, html: bool)
    requires !tag.closing && IsRawText(tag.name, html) && RawText(after, 0, tag.name) == Ok(raw)
             && after[..raw.0] == body
    ensures OfTag(tag, after, html) == Ok(Stride([WithRawText(tag, body)], raw.1))
  {
    NotPlaintext(tag.name, html);
    hide RawText, IsRawText, WithRawText;
  }

  lemma RawElementShape(name: string, attributes: seq<PrintedAttribute>, close: Close, body: string, end: Close,
                        rest: string)
    ensures var item := RawElement(name, attributes, close, body, end);
            && Print(item) + rest == PrintStart(name, attributes, close) + ClosedBy(body, name, end, rest)
            && |Print(item)| == |PrintStart(name, attributes, close)| + |body| + |PrintEnd(name, end)|
            && |body| <= |ClosedBy(body, name, end, rest)| && ClosedBy(body, name, end, rest)[..|body|] == body
  {
    hide PrintStart;
  }

  lemma RawElementIsScanned(name: string, attributes: seq<PrintedAttribute>, close: Close, body: string, end: Close,
                            rest: string, html: bool)
    requires ItemOk(RawElement(name, attributes, close, body, end), html)
    ensures var item := RawElement(name, attributes, close, body, end);
            AtMarkup(Print(item) + rest, html) == Ok(Stride(TagsOf(item), |Print(item)|))
  {
    hide PrintStart, AttributesOf, AtMarkup, AsciiLower, IsRawText, WithRawText, Find, IsName, OfTag, RawText, ClosedBy;
    hide PrintEnd, OnlyLookAlikes, IsBlank, AttributeOk, Print, TagsOf;
    var tag := StartOf(name, attributes);
    var after := ClosedBy(body, name, end, rest);
    RawElementShape(name, attributes, close, body, end, rest);
    RawTextIsRead(name, body, end, rest, 0);
    StartIsTag(name, attributes, close, after, html);
    RawIsRead(tag, after, (|body|, |body| + |PrintEnd(name, end)|), body, html);
    RawIsKept(name, attributes, close, body, end);
  }

  lemma RawIsKept(name: string, attributes: seq<PrintedAttribute>, close: Close, body: string, end: Close)
    ensures TagsOf(RawElement(name, attributes, close, body, end)) == [WithRawText(StartOf(name, attributes), body)]
  {
    FindsIfThere(body, "<!--");
    hide Find, AsciiLower, AttributesOf;
  }

  lemma FindsIfThere(s: string, pattern: string)
    requires pattern != ""
    ensures Find(s, pattern).Some? <==> exists i :: 0 <= i <= |s| && pattern <= s[i..]
  {
    if Find(s, pattern).Some? {
      FoundIsFirst(s, pattern, Find(s, pattern).value);
    }
    forall i | 0 <= i <= |s| && pattern <= s[i..]
      ensures Find(s, pattern).Some?
    {
      FoundIsFirst(s, pattern, i);
    }
  }

  lemma NotPlaintext(name: string, html: bool)
    requires IsRawText(name, html)
    ensures name != "plaintext"
  {
  }

  /** The elements whose content is text, in HTML and elsewhere. */
  lemma RawTextElements(name: string)
    ensures IsRawText(name, false) <==> name in {"style", "script"}
    ensures IsRawText(name, true) <==>
              name in {"style", "script", "title", "textarea", "xmp", "iframe", "noembed", "noframes", "noscript"}
  {
  }

  // ---- The round trip ----

  lemma SolidEnds()
    ensures forall k :: 0 < k < 3 ==> "-->"[..k] != "-->"[3 - k..]
    ensures forall k :: 0 < k < 3 ==> "]]>"[..k] != "]]>"[3 - k..]
    ensures "?>"[..1] != "?>"[1..]
  {
    assert "-->"[..1] == "-" && "-->"[2..] == ">" && "-->"[..2] == "--" && "-->"[1..] == "->";
    assert "]]>"[..1] == "]" && "]]>"[2..] == ">" && "]]>"[..2] == "]]" && "]]>"[1..] == "]>";
    assert "?>"[..1] == "?" && "?>"[1..] == ">";
  }

  lemma SkippedWhole(opening: string, body: string, end: string, rest: string)
    requires end != "" && Find(body, end) == None
    requires forall k :: 0 < k < |end| ==> end[..k] != end[|end| - k..]
    ensures var s := opening + (body + end + rest);
            StartsWith(s, opening) && Skipped(s, opening, end) == Ok(Stride([], |opening| + |body| + |end|))
  {
    hide Find;
    var tail := body + end + rest;
    OpenIsSeen(opening, tail);
    FindsItsEnd(body, end, rest);
  }

  lemma OpenIsSeen(opening: string, body: string)
    ensures StartsWith(opening + body, opening) && (opening + body)[|opening|..] == body
  {
  }

  lemma RemarkIsScanned(body: string, rest: string, html: bool)
    requires Find(body, "-->") == None
    ensures AtMarkup("<!--" + body + "-->" + rest, html) == Ok(Stride([], |body| + 7))
  {
    SolidEnds();
    hide Find, AtTag, Skipped;
    SkippedWhole("<!--", body, "-->", rest);
    assert "<!--" + body + "-->" + rest == "<!--" + (body + "-->" + rest);
  }

  lemma AtSection(tail: string, html: bool)
    ensures var s := "<![CDATA[" + tail;
            StartsWith(s, "<![CDATA[") && AtMarkup(s, html) == Skipped(s, "<![CDATA[", "]]>")
  {
    hide AtTag, Skipped;
    var s := "<![CDATA[" + tail;
    OpenIsSeen("<![CDATA[", tail);
    assert s[2] == '[' && "<!--"[2] == '-';
  }

  lemma AtInstruction(tail: string)
    ensures var s := "<?" + tail; StartsWith(s, "<?") && AtMarkup(s, false) == Skipped(s, "<?", "?>")
  {
    hide AtTag, Skipped;
    var s := "<?" + tail;
    OpenIsSeen("<?", tail);
    assert s[1] == '?';
    PrefixDiffers(s, "<!--");
    PrefixDiffers(s, "<![CDATA[");
  }

  lemma SectionIsScanned(body: string, rest: string, html: bool)
    requires Find(body, "]]>") == None
    ensures AtMarkup("<![CDATA[" + body + "]]>" + rest, html) == Ok(Stride([], |body| + 12))
  {
    SolidEnds();
    hide Find, AtMarkup, Skipped;
    SkippedWhole("<![CDATA[", body, "]]>", rest);
    AtSection(body + "]]>" + rest, html);
    assert "<![CDATA[" + body + "]]>" + rest == "<![CDATA[" + (body + "]]>" + rest);
  }

  lemma InstructionIsScanned(body: string, rest: string)
    requires Find(body, "?>") == None
    ensures AtMarkup("<?" + body + "?>" + rest, false) == Ok(Stride([], |body| + 4))
  {
    SolidEnds();
    hide Find, AtMarkup, Skipped;
    SkippedWhole("<?", body, "?>", rest);
    AtInstruction(body + "?>" + rest);
    assert "<?" + body + "?>" + rest == "<?" + (body + "?>" + rest);
  }

  /** What is no tag inside is passed over up to its '>'. */
  lemma NoTagIsPassed(text: string, rest: string, html: bool)
    requires IsOpen(text) && TagBody(Trim(text)) == Ok(None)
    ensures AtTag("<" + text + ">" + rest, html) == Ok(Stride([], |text| + 2))
  {
    OpenEnds(text, rest);
    var s := "<" + text + ">" + rest;
    assert s[1..] == text + (">" + rest) && s[1..1 + |text|] == text;
    hide TagEnd, TagBody, Trim;
  }

  lemma TrimKeepsFirst(text: string)
    requires text != "" && IsSolid(text[0])
    ensures Trim(text) != "" && Trim(text)[0] == text[0]
  {
    SolidStart(text);
    var word := text[..1];
    var k := EndIsTrimmed(word, text[1..]);
    assert word + text[1..] == text;
    hide TrimEnd, TrimStart;
  }

  lemma DeclarationIsNoTag(text: string)
    requires text != "" && (text[0] == '!' || text[0] == '?')
    ensures TagBody(Trim(text)) == Ok(None)
  {
    TrimKeepsFirst(text);
    hide Trim;
  }

  lemma DeclarationIsScanned(text: string, rest: string, html: bool)
    requires ItemOk(Declaration(text), html)
    ensures AtMarkup("<" + text + ">" + rest, html) == Ok(Stride([], |text| + 2))
  {
    hide AtTag, Trim, Skipped, TagBody, IsOpen;
    var s := "<" + text + ">" + rest;
    assert s[1] == text[0];
    DeclarationIsNoTag(text);
    NoTagIsPassed(text, rest, html);
    OpeningMatches(text, rest, "!--");
    OpeningMatches(text, rest, "![CDATA[");
    assert "<" + "!--" == "<!--" && "<" + "![CDATA[" == "<![CDATA[";
  }

  /** An opening without a '>' that starts the markup starts its text. */
  lemma OpeningMatches(text: string, rest: string, opening: string)
    requires '>' !in opening
    ensures StartsWith("<" + text + ">" + rest, "<" + opening) ==> StartsWith(text, opening)
  {
    var s := "<" + text + ">" + rest;
    assert s[1 + |text|] == '>' && s[1..][..|text|] == text;
    assert |text| < |opening| ==> opening[|text|] in opening;
    assert forall i :: 0 <= i < |opening| ==> ("<" + opening)[1 + i] == opening[i];
    assert forall i :: 0 <= i < |text| ==> s[1 + i] == text[i];
  }

  lemma OddityIsScanned(text: string, rest: string, html: bool)
    requires ItemOk(Oddity(text), html)
    ensures AtMarkup("<" + text + ">" + rest, html) == Ok(Stride([], |text| + 2))
  {
    var s := "<" + text + ">" + rest;
    if text == "" {
      NothingIsTrimmed();
    } else {
      TrimKeepsFirst(text);
      assert text[0] in text;
      OddIsNoTag(Trim(text));
    }
    NoTagIsPassed(text, rest, html);
    assert s[1] == if text == "" then '>' else text[0];
    NotSpecial(s);
    hide AtTag, AtMarkup, Trim, TagBody;
  }

  lemma OddIsNoTag(text: string)
    requires text != "" && IsSolid(text[0]) && !IsNameByte(text[0]) && text[0] !in "/!?>"
    ensures TagBody(text) == Ok(None)
  {
    SolidStart(text);
    var n := Before(text, "/>");
    assert n > 0;
    var name := AsciiLower(text[..n]);
    assert name[0] == text[0] && name[0] in name by {
      assert !('A' <= text[0] <= 'Z');
    }
    hide Before, Attributes;
  }

  lemma MarkupIsScanned(item: Item, rest: string, html: bool)
    requires ItemOk(item, html) && !item.Prose?
    ensures var s := Print(item) + rest;
            s != "" && s[0] == '<' && AtMarkup(s, html) == Ok(Stride(TagsOf(item), |Print(item)|))
              && s[|Print(item)|..] == rest
  {
    hide AtMarkup;
    match item
    case Remark(body) => RemarkIsScanned(body, rest, html);
    case Section(body) => SectionIsScanned(body, rest, html);
    case Instruction(body) => InstructionIsScanned(body, rest);
    case Declaration(text) => DeclarationIsScanned(text, rest, html);
    case Oddity(text) => OddityIsScanned(text, rest, html);
    case EndTag(pad, name, junk) => EndTagIsScanned(pad, name, junk, rest, html);
    case StartTag(name, attributes, close) => StartTagIsScanned(name, attributes, close, rest, html);
    case RawElement(name, attributes, close, body, end) =>
      RawElementIsScanned(name, attributes, close, body, end, rest, html);
    hide ItemOk, TagsOf;
  }

  lemma FirstDiffers(s: string, pattern: string)
    requires s != "" && pattern != "" && s[0] != pattern[0]
    ensures !(pattern <= s)
  {
  }

  lemma {:induction false} ProseIsPassed(text: string, rest: string)
    requires '<' !in text
    ensures Find(text + rest, "<") == Shifted(|text|, Find(rest, "<"))
    decreases |text|
  {
    var s := text + rest;
    if text == "" {
      assert s == rest;
    } else {
      assert s[0] == text[0] && text[0] in text && s[1..] == text[1..] + rest;
      FirstDiffers(s, "<");
      ProseIsPassed(text[1..], rest);
    }
  }

  lemma DropConcatenation(text: string, rest: string, n: nat)
    requires n <= |rest|
    ensures (text + rest)[|text| + n..] == rest[n..]
  {
  }

  lemma ProseIsScanned(text: string, rest: string, html: bool)
    requires '<' !in text
    ensures Scanned(text + rest, html) == Scanned(rest, html)
  {
    hide ScannedHere, Find;
    ProseIsPassed(text, rest);
    if Find(rest, "<").Some? {
      DropConcatenation(text, rest, Find(rest, "<").value);
    }
  }

  lemma ItemIsScanned(item: Item, rest: string, html: bool)
    requires ItemOk(item, html)
    ensures Scanned(Print(item) + rest, html) == Contributed(TagsOf(item), Scanned(rest, html))
  {
    if item.Prose? {
      ProseIsScanned(item.text, rest, html);
      ContributedMore([], [], Scanned(rest, html));
    } else {
      var s := Print(item) + rest;
      MarkupIsScanned(item, rest, html);
      assert s[..1] == "<" && s[0..] == s;
      FindIs(s, "<", 0);
      MarkupFollows(s, 0, html);
      hide Scanned, ScannedHere, AtMarkup, Find, ItemOk, Print, TagsOf;
    }
  }

  /** Printed items contribute exactly their tags, whatever follows. */
  lemma {:induction false} ItemsAreScanned(items: seq<Item>, rest: string, html: bool)
    requires forall item :: item in items ==> ItemOk(item, html)
    ensures Scanned(PrintAll(items) + rest, html) == Contributed(TagsOfAll(items), Scanned(rest, html))
    decreases |items|
  {
    if items == [] {
      ContributedMore([], [], Scanned(rest, html));
      assert "" + rest == rest;
    } else {
      var more := PrintAll(items[1..]) + rest;
      ItemsAreScanned(items[1..], rest, html);
      ItemIsScanned(items[0], more, html);
      ContributedMore(TagsOf(items[0]), TagsOfAll(items[1..]), Scanned(rest, html));
      hide Scanned, ItemOk, Print, TagsOf;
      assert PrintAll(items) + rest == Print(items[0]) + more;
    }
  }

  /** Printing well-formed markup and scanning it gives back exactly the printed tags and attributes. */
  lemma ScannerUndoesPrinter(items: seq<Item>, html: bool)
    requires forall item :: item in items ==> ItemOk(item, html)
    ensures Scanned(PrintAll(items), html) == Ok(TagsOfAll(items))
  {
    ItemsAreScanned(items, "", html);
    assert Find("", "<") == None && TagsOfAll(items) + [] == TagsOfAll(items);
    assert PrintAll(items) + "" == PrintAll(items);
    hide TagsOfAll;
  }

  // ---- Ends of a document ----

  /** What a text contributes that begins with markup. */
  lemma AtOnce(s: string, stride: Result<Stride, MarkupError>, html: bool)
    requires s != "" && s[0] == '<' && AtMarkup(s, html) == stride
    ensures Scanned(s, html) ==
              if stride.Err? then Err(MalformedMarkup)
              else Contributed(stride.value.tags, Scanned(s[stride.value.length..], html))
  {
    assert s[..1] == "<" && s[0..] == s;
    FindIs(s, "<", 0);
    hide AtMarkup, Find;
    MarkupFollows(s, 0, html);
  }

  /** In HTML everything after a plaintext tag is text. */
  lemma PlaintextSwallows(items: seq<Item>, name: string, attributes: seq<PrintedAttribute>, close: Close,
                          rest: string)
    requires forall item :: item in items ==> ItemOk(item, true)
    requires StartOk(name, attributes, close) && AsciiLower(name) == "plaintext"
    ensures Scanned(PrintAll(items) + PrintStart(name, attributes, close) + rest, true) ==
              Ok(TagsOfAll(items) + [StartOf(name, attributes)])
  {
    hide AtMarkup, AttributesOf, TagsOfAll, PrintAll, StartOk, AsciiLower, ItemOk, PrintStart, TagEnd, Scanned;
    var start := PrintStart(name, attributes, close);
    var s := start + rest;
    StartIsTag(name, attributes, close, rest, true);
    StartIsRead(name, attributes, close, rest);
    ItemsAreScanned(items, s, true);
    Regroup(PrintAll(items), start, rest);
    PlaintextTakesAll(StartOf(name, attributes), rest);
    AtOnce(s, Ok(Stride([StartOf(name, attributes)], |s|)), true);
    assert s[|s|..] == "";
    NothingIsScanned(true);
    assert [StartOf(name, attributes)] + [] == [StartOf(name, attributes)];
  }

  lemma PlaintextTakesAll(tag: Tag, rest: string)
    requires !tag.closing && tag.name == "plaintext"
    ensures OfTag(tag, rest, true) == Ok(Stride([tag], |rest|))
  {
  }

  lemma NothingIsScanned(html: bool)
    ensures Scanned("", html) == Ok([])
  {
    assert Find("", "<") == None;
  }

  /** A '<' that nothing closes is text if no tag can begin there. */
  lemma StrayIsPassed(items: seq<Item>, text: string, html: bool)
    requires forall item :: item in items ==> ItemOk(item, html)
    requires '>' !in text && '<' !in text && !LooksLikeMarkup(text)
    ensures Scanned(PrintAll(items) + ("<" + text), html) == Ok(TagsOfAll(items))
  {
    hide AtMarkup, TagsOfAll, PrintAll, Find, ItemOk, TagEnd;
    ItemsAreScanned(items, "<" + text, html);
    StrayIsSeen(text, html);
    AtOnce("<" + text, Ok(Stride([], 1)), html);
    assert ("<" + text)[1..] == text;
    NoneIsFound(text);
    assert TagsOfAll(items) + [] == TagsOfAll(items);
  }

  lemma StrayIsSeen(text: string, html: bool)
    requires '>' !in text && !LooksLikeMarkup(text)
    ensures AtMarkup("<" + text, html) == Ok(Stride([], 1))
  {
    var s := "<" + text;
    NothingCloses(text, None);
    hide Skipped, TagBody, TagEnd;
    assert s[1..] == text;
    if text != "" {
      assert s[1] == text[0];
      NotSpecial(s);
    }
  }

  lemma NoneIsFound(text: string)
    requires '<' !in text
    ensures Find(text, "<") == None
  {
    FindsIfThere(text, "<");
    forall i | 0 <= i <= |text|
      ensures !("<" <= text[i..])
    {
      assert i < |text| ==> text[i..][0] == text[i];
    }
  }

  lemma {:induction false} NothingCloses(text: string, quote: Option<char>)
    requires '>' !in text
    ensures TagEnd(text, quote) == None
    decreases |text|
  {
    if text != "" {
      assert text[0] in text;
      NothingCloses(text[1..], None);
      NothingCloses(text[1..], quote);
      NothingCloses(text[1..], Some(text[0]));
    }
  }

  /** How markup may break off or go wrong. */
  datatype Broken =
    | OpenRemark(body: string)
    | OpenSection(body: string)
    | OpenInstruction(body: string)
    | OpenTag(text: string)
    | OpenRawElement(name: string, attributes: seq<PrintedAttribute>, close: Close, body: string)
    | OpenQuote(name: string, blank: string, attribute: string, quote: char, text: string)
    | BadTag(name: string, attributes: seq<PrintedAttribute>, blunder: Blunder, rest: string)

  function PrintBroken(broken: Broken): string
  {
    match broken
    case OpenRemark(body) => "<!--" + body
    case OpenSection(body) => "<![CDATA[" + body
    case OpenInstruction(body) => "<?" + body
    case OpenTag(text) => "<" + text
    case OpenRawElement(name, attributes, close, body) => PrintStart(name, attributes, close) + body
    case OpenQuote(name, blank, attribute, quote, text) => "<" + (name + blank + attribute) + "=" + [quote] + text
    case BadTag(name, attributes, blunder, rest) =>
      "<" + (name + PrintAttributes(attributes) + PrintBlunder(blunder)) + ">" + rest
  }

  predicate IsBroken(broken: Broken, html: bool)
  {
    match broken
    case OpenRemark(body) => Find(body, "-->") == None
    case OpenSection(body) => Find(body, "]]>") == None
    case OpenInstruction(body) => !html && Find(body, "?>") == None
    case OpenTag(text) => text != "" && (IsAsciiAlphabetic(text[0]) || text[0] == '/') && '>' !in text
    case OpenRawElement(name, attributes, close, body) =>
      StartOk(name, attributes, close) && IsRawText(AsciiLower(name), html)
        && Find(AsciiLower(body), "</" + AsciiLower(name)) == None
    case OpenQuote(name, blank, attribute, quote, text) =>
      name != "" && IsAsciiAlphabetic(name[0]) && IsOpen(name + blank + attribute) && IsQuote(quote) && quote !in text
    case BadTag(name, attributes, blunder, _) =>
      IsName(name) && IsBlunder(blunder) && forall a :: a in attributes ==> AttributeOk(a)
  }

  /** Such a text is refused as a whole. */
  lemma BrokenIsRefused(items: seq<Item>, broken: Broken, html: bool)
    requires (forall item :: item in items ==> ItemOk(item, html)) && IsBroken(broken, html)
    ensures Scanned(PrintAll(items) + PrintBroken(broken), html) == Err(MalformedMarkup)
  {
    hide AtMarkup, TagsOfAll, PrintAll, PrintBroken, IsBroken, ItemOk;
    var s := PrintBroken(broken);
    ItemsAreScanned(items, s, html);
    BrokenIsSeen(broken, html);
    AtOnce(s, Err(MalformedMarkup), html);
  }

  lemma BrokenIsSeen(broken: Broken, html: bool)
    requires IsBroken(broken, html)
    ensures var s := PrintBroken(broken); s != "" && s[0] == '<' && AtMarkup(s, html) == Err(MalformedMarkup)
  {
    hide AtMarkup, Find, PrintStart, StartOk, AsciiLower, IsRawText, IsOpen;
    match broken {
      case OpenRemark(body) => NotClosed("<!--", body, "-->", html);
      case OpenSection(body) => NotClosed("<![CDATA[", body, "]]>", html);
      case OpenInstruction(body) => NotClosed("<?", body, "?>", html);
      case OpenTag(text) =>
        NothingCloses(text, None);
        OpenTagIsSeen(text, html);
      case OpenRawElement(name, attributes, close, body) => RawIsNotClosed(name, attributes, close, body, html);
      case OpenQuote(name, blank, attribute, quote, text) =>
        QuoteIsNotClosed(name + blank + attribute, quote, text, html);
      case BadTag(name, attributes, blunder, rest) => BadTagIsSeen(name, attributes, blunder, rest, html);
    }
  }

  lemma BlunderIsRefused(blunder: Blunder)
    requires IsBlunder(blunder)
    ensures var s := PrintBlunder(blunder);
            && s != "" && Attributes(s) == None && !StartsWith(TrimStart(s), "=") && IsAsciiWhitespace(s[0])
            && IsOpen(s) && IsSolid(s[|s| - 1])
  {
    BlankIsOpen(blunder.before);
    match blunder {
      case BadName(before, name) => BadNameIsRefused(before, name);
      case BadValue(before, name, text) =>
        BadValueIsRefused(before, name, text);
        NameIsOpen(PrintedAttribute(before, name, "", "", Missing));
    }
    hide Attributes, TrimStart, StartsWith, AttributeOk;
  }

  lemma BlunderStops(name: string, attributes: seq<PrintedAttribute>, blunder: Blunder)
    requires IsBlunder(blunder) && forall a :: a in attributes ==> AttributeOk(a)
    ensures Stops(PrintAttributes(attributes) + PrintBlunder(blunder), "/>")
  {
    BlunderIsRefused(blunder);
    var bad := PrintBlunder(blunder);
    if attributes == [] {
      assert "" + bad == bad;
    } else {
      assert AttributeOk(attributes[0]) && attributes[0].before[0] in attributes[0].before;
      assert (PrintAttributes(attributes) + bad)[0] == attributes[0].before[0];
    }
  }

  lemma BlunderIsParsed(name: string, attributes: seq<PrintedAttribute>, blunder: Blunder)
    requires IsName(name) && IsBlunder(blunder) && forall a :: a in attributes ==> AttributeOk(a)
    ensures TagBody(Trim(name + PrintAttributes(attributes) + PrintBlunder(blunder))) == Err(MalformedMarkup)
  {
    hide Attributes, PrintAttributes, AttributesOf, Before, TrimStart, TrimEnd, AttributeOk, IsBlunder, PrintBlunder;
    hide StartsWith, IsOpen;
    var bad := PrintBlunder(blunder);
    var more := PrintAttributes(attributes) + bad;
    var inside := name + PrintAttributes(attributes) + bad;
    Regroup(name, PrintAttributes(attributes), bad);
    BlunderIsRefused(blunder);
    BlunderStops(name, attributes, blunder);
    NameEnds(name);
    NameIsPlain(name);
    assert name[0] in name;
    SolidStart(inside);
    SolidEnd(inside);
    WordIsBefore(name, more, "/>");
    LowerIsName(name);
    AttributesAreParsed(attributes, bad);
    assert inside[..|name|] == name && inside[|name|..] == more;
    hide AsciiLower, IsName, Stops;
  }

  lemma BadTagEnds(name: string, attributes: seq<PrintedAttribute>, bad: string, rest: string)
    requires IsName(name) && IsOpen(bad) && forall a :: a in attributes ==> AttributeOk(a)
    ensures var inside := name + PrintAttributes(attributes) + bad;
            TagEnd(inside + (">" + rest), None) == Some(|inside|)
  {
    hide TagEnd, AttributeOk, PrintAttributes;
    NameIsPlain(name);
    var closed := bad + (">" + rest);
    OpenEnds(bad, rest);
    AttributesArePassed(attributes, closed);
    UnquotedIsPassed(name, PrintAttributes(attributes) + closed);
    assert name + PrintAttributes(attributes) + bad + (">" + rest) == name + (PrintAttributes(attributes) + closed);
  }

  lemma BadTagIsSeen(name: string, attributes: seq<PrintedAttribute>, blunder: Blunder, rest: string, html: bool)
    requires IsName(name) && IsBlunder(blunder) && forall a :: a in attributes ==> AttributeOk(a)
    ensures var s := "<" + (name + PrintAttributes(attributes) + PrintBlunder(blunder)) + ">" + rest;
            AtMarkup(s, html) == Err(MalformedMarkup)
  {
    hide AtMarkup, TagBody, Trim, AttributeOk, IsBlunder, Attributes, PrintBlunder, TagEnd, PrintAttributes, StartsWith;
    hide IsOpen;
    var bad := PrintBlunder(blunder);
    var inside := name + PrintAttributes(attributes) + bad;
    var s := "<" + inside + ">" + rest;
    BlunderIsRefused(blunder);
    BlunderIsParsed(name, attributes, blunder);
    BadTagEnds(name, attributes, bad, rest);
    NameIsPlain(name);
    assert name[0] in name && s[1] == name[0];
    assert s[1..] == inside + (">" + rest) && s[1..1 + |inside|] == inside;
    NotSpecial(s);
  }

  lemma NotClosed(opening: string, body: string, end: string, html: bool)
    requires (opening, end) in {("<!--", "-->"), ("<![CDATA[", "]]>")} || (!html && (opening, end) == ("<?", "?>"))
    requires Find(body, end) == None
    ensures AtMarkup(opening + body, html) == Err(MalformedMarkup)
  {
    hide Find, AtTag;
    var s := opening + body;
    OpenIsSeen(opening, body);
    assert s[1] == opening[1] && (opening == "<![CDATA[" ==> s[2] == '[');
    if opening == "<![CDATA[" {
      assert "<!--"[2] == '-' && !StartsWith(s, "<!--");
    } else if opening == "<?" {
      PrefixDiffers(s, "<!--");
      PrefixDiffers(s, "<![CDATA[");
    }
  }

  lemma RawIsNotClosed(name: string, attributes: seq<PrintedAttribute>, close: Close, body: string, html: bool)
    requires StartOk(name, attributes, close) && IsRawText(AsciiLower(name), html)
    requires Find(AsciiLower(body), "</" + AsciiLower(name)) == None
    ensures var s := PrintStart(name, attributes, close) + body;
            s != "" && s[0] == '<' && AtMarkup(s, html) == Err(MalformedMarkup)
  {
    hide AtMarkup, StartOk, PrintStart, AttributesOf, AsciiLower, IsRawText, Find, TagEnd;
    StartIsRead(name, attributes, close, body);
    StartIsTag(name, attributes, close, body, html);
    NotPlaintext(AsciiLower(name), html);
    assert AsciiLower(body)[0..] == AsciiLower(body);
  }

  lemma QuoteIsNotClosed(front: string, quote: char, text: string, html: bool)
    requires front != "" && IsAsciiAlphabetic(front[0]) && IsOpen(front) && IsQuote(quote) && quote !in text
    ensures AtMarkup("<" + front + "=" + [quote] + text, html) == Err(MalformedMarkup)
  {
    hide AtMarkup;
    var quoted := [quote] + text;
    NeverClosed(text, quote);
    assert quoted[1..] == text && TagEnd(quoted, None) == None;
    UnquotedIsPassed(front + "=", quoted);
    hide TagEnd;
    assert "<" + front + "=" + [quote] + text == "<" + (front + "=" + quoted);
    OpenTagIsSeen(front + "=" + quoted, html);
  }

  lemma OpenTagIsSeen(text: string, html: bool)
    requires text != "" && (IsAsciiAlphabetic(text[0]) || text[0] == '/') && TagEnd(text, None) == None
    ensures AtMarkup("<" + text, html) == Err(MalformedMarkup)
  {
    var s := "<" + text;
    assert s[1..] == text && s[1] == text[0];
    NotSpecial(s);
    hide TagEnd, AtMarkup;
  }

  lemma {:induction false} NeverClosed(text: string, quote: char)
    requires quote !in text
    ensures TagEnd(text, Some(quote)) == None
    decreases |text|
  {
    if text != "" {
      assert text[0] in text;
      NeverClosed(text[1..], quote);
    }
  }
}
