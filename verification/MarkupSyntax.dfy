/** What the markup scanner of static_export.rs reads from the rest of a text, as functions. */
module MarkupSyntax {
  import opened Base
  import opened Paths
  import opened Whitespace

  type Attribute = (string, string)

  datatype MarkupError = MalformedMarkup

  datatype Tag = Tag(name: string, closing: bool, attributes: seq<Attribute>, inlineCss: Option<string>,
      incomplete: bool)

  /** A part that was read, and what is left. */
  datatype Cut<T> = Cut(item: T, rest: string)

  predicate IsQuote(c: char) { c == '\'' || c == '"' }

  predicate IsAsciiAlphabetic(c: char) { 'a' <= c <= 'z' || 'A' <= c <= 'Z' }

  predicate IsNameByte(c: char) { IsAsciiAlphabetic(c) || '0' <= c <= '9' || c == '-' || c == ':' }

  predicate IsName(name: string) { name != "" && forall c :: c in name ==> IsNameByte(c) }

  predicate IsAsciiWhitespace(c: char) { c == ' ' || c == '\t' || c == '\n' || c == '\r' || c == 12 as char }

  /** The first place where `pattern` starts. */
  function Find(s: string, pattern: string): (r: Option<nat>)
    requires pattern != ""
    ensures r.Some? ==> r.value + |pattern| <= |s| && s[r.value] == pattern[0]
  {
    if pattern <= s then Some(0)
    else if s == "" then None
    else
      match Find(s[1..], pattern)
      case None => None
      case Some(i) => Some(i + 1)
  }

  /** What is found is an occurrence, and no earlier place has one. */
  lemma {:induction false} FoundIsFirst(s: string, pattern: string, j: nat)
    requires pattern != "" && j <= |s|
    ensures Find(s, pattern) == Some(j) ==> pattern <= s[j..]
    ensures (Find(s, pattern) == None || j < Find(s, pattern).value) ==> !(pattern <= s[j..])
    decreases |s|
  {
    assert s[0..] == s;
    if j > 0 {
      assert s[1..][j - 1..] == s[j..];
      FoundIsFirst(s[1..], pattern, j - 1);
    }
  }

  function Later(i: Option<nat>): Option<nat>
  {
    match i
    case None => None
    case Some(n) => Some(n + 1)
  }

  /** The first '>' outside quotes. */
  function TagEnd(s: string, quote: Option<char>): (r: Option<nat>)
    ensures r.Some? ==> r.value < |s| && s[r.value] == '>'
  {
    if s == "" then None
    else if quote.Some? then Later(TagEnd(s[1..], if s[0] == quote.value then None else quote))
    else if IsQuote(s[0]) then Later(TagEnd(s[1..], Some(s[0])))
    else if s[0] == '>' then Some(0)
    else Later(TagEnd(s[1..], None))
  }

  /** The length of the part before white space or one of `stops`. */
  function Before(s: string, stops: string): (n: nat)
    ensures n <= |s|
  {
    if s == "" || SpaceAt(s, 0) > 0 || s[0] in stops then 0 else 1 + Before(s[1..], stops)
  }

  // ---- Attributes ----

  predicate BadInName(name: string, i: nat)
    requires i < |name|
  {
    ControlAt(name, i) || name[i] in "/<>'\"`"
  }

  function AttributeName(input: string): (r: Option<Cut<string>>)
    ensures r.Some? ==> |r.value.rest| < |input|
  {
    var n := Before(input, "=");
    if n == 0 || exists i :: 0 <= i < n && BadInName(input[..n], i) then None
    else Some(Cut(AsciiLower(input[..n]), TrimStart(input[n..])))
  }

  function AttributeValue(rest: string): (r: Option<Cut<string>>)
    ensures r.Some? ==> |r.value.rest| <= |rest|
  {
    if !StartsWith(rest, "=") then Some(Cut("", rest))
    else
      var input := TrimStart(rest[1..]);
      if input != "" && IsQuote(input[0]) then
        match Find(input[1..], [input[0]])
        case None => None
        case Some(end) => Some(Cut(input[1..][..end], input[1..][end + 1..]))
      else
        var end := Before(input, "");
        if exists i :: 0 <= i < end && input[i] in "<>'\"`=" then None
        else Some(Cut(input[..end], input[end..]))
  }

  function Attributes(input: string): Option<seq<Attribute>>
    decreases |input|
  {
    var trimmed := TrimStart(input);
    if trimmed == "" || trimmed == "/" then Some([])
    else
      match AttributeName(trimmed)
      case None => None
      case Some(name) =>
        match AttributeValue(name.rest)
        case None => None
        case Some(value) =>
          match Attributes(value.rest)
          case None => None
          case Some(more) => Some([(name.item, value.item)] + more)
  }

  // ---- Tags ----

  /** An error, no tag, or a tag. */
  function TagBody(text: string): Result<Option<Tag>, MarkupError>
  {
    if text == "" || text[0] == '!' || text[0] == '?' then Ok(None)
    else
      var closing := text[0] == '/';
      var body := TrimStart(if closing then text[1..] else text);
      var n := Before(body, "/>");
      var name := AsciiLower(body[..n]);
      if !IsName(name) then Ok(None)
      else if closing then Ok(Some(Tag(name, true, [], None, false)))
      else
        match Attributes(body[n..])
        case None => Err(MalformedMarkup)
        case Some(attributes) => Ok(Some(Tag(name, false, attributes, None, false)))
  }

  predicate IsRawText(name: string, html: bool)
  {
    name in ["style", "script"]
    || (html && name in ["title", "textarea", "xmp", "iframe", "noembed", "noframes", "noscript"])
  }

  predicate EndsTagName(c: char) { IsAsciiWhitespace(c) || c == '/' || c == '>' }

  /** Whether the closing tag, read up to its '>', has nothing but its name and perhaps a slash. */
  predicate ClosesCleanly(closing: string, name: string)
  {
    var body := Trim(closing);
    && |name| + 1 <= |body| && AsciiLower(body[..|name| + 1]) == "/" + name
    && Trim(body[|name| + 1..]) in ["", "/"]
  }

  /** The closing tag that starts at `at` must end cleanly. */
  function ClosingAt(tail: string, at: nat, name: string): (r: Result<(nat, nat), MarkupError>)
    requires at < |tail|
    ensures r.Ok? ==> r.value.0 < r.value.1 <= |tail|
  {
    match TagEnd(tail[at + 1..], None)
    case None => Err(MalformedMarkup)
    case Some(end) =>
      if ClosesCleanly(tail[at + 1..at + 1 + end], name) then Ok((at, at + 1 + end + 1)) else Err(MalformedMarkup)
  }

  predicate IsLookAlike(tail: string, after: nat) { after < |tail| && !EndsTagName(tail[after]) }

  /** Where the raw text of an element ends, and where scanning goes on; `from` skips look-alikes. */
  function RawText(tail: string, from: nat, name: string): (r: Result<(nat, nat), MarkupError>)
    requires from <= |tail|
    ensures r.Ok? ==> r.value.0 < r.value.1 <= |tail|
    decreases |tail| - from
  {
    match Find(AsciiLower(tail)[from..], "</" + name)
    case None => Err(MalformedMarkup)
    case Some(i) =>
      if IsLookAlike(tail, from + i + 2 + |name|) then RawText(tail, from + i + 2 + |name|, name)
      else ClosingAt(tail, from + i, name)
  }

  function WithRawText(tag: Tag, raw: string): Tag
  {
    if tag.name == "style" then tag.(inlineCss := Some(raw))
    else if tag.name == "script" && Find(raw, "<!--").Some? then tag.(incomplete := true)
    else tag
  }

  predicate LooksLikeMarkup(s: string)
  {
    s != "" && (IsAsciiAlphabetic(s[0]) || s[0] in "/!?")
  }

  // ---- The whole scan ----

  /** One step at a '<': what it contributes and how far it goes; an error where the markup is malformed. */
  datatype Stride = Stride(tags: seq<Tag>, length: nat)

  function Skipped(s: string, opening: string, end: string): (r: Result<Stride, MarkupError>)
    requires StartsWith(s, opening) && end != ""
    ensures r.Ok? ==> 0 < r.value.length <= |s|
  {
    match Find(s[|opening|..], end)
    case None => Err(MalformedMarkup)
    case Some(i) => Ok(Stride([], |opening| + i + |end|))
  }

  /** After a tag: all of the text, a raw text element, or just the tag. `after` is what follows its '>'. */
  function OfTag(tag: Tag, after: string, html: bool): (r: Result<Stride, MarkupError>)
    ensures r.Ok? ==> r.value.length <= |after|
  {
    if !tag.closing && html && tag.name == "plaintext" then Ok(Stride([tag], |after|))
    else if !tag.closing && IsRawText(tag.name, html) then
      match RawText(after, 0, tag.name)
      case Err(_) => Err(MalformedMarkup)
      case Ok(raw) => Ok(Stride([WithRawText(tag, after[..raw.0])], raw.1))
    else Ok(Stride([tag], 0))
  }

  function Advanced(n: nat, stride: Result<Stride, MarkupError>): Result<Stride, MarkupError>
  {
    match stride
    case Err(_) => Err(MalformedMarkup)
    case Ok(s) => Ok(Stride(s.tags, n + s.length))
  }

  function AtTag(s: string, html: bool): (r: Result<Stride, MarkupError>)
    requires s != "" && s[0] == '<'
    ensures r.Ok? ==> 0 < r.value.length <= |s|
  {
    match TagEnd(s[1..], None)
    case None => if LooksLikeMarkup(s[1..]) then Err(MalformedMarkup) else Ok(Stride([], 1))
    case Some(end) =>
      match TagBody(Trim(s[1..1 + end]))
      case Err(_) => Err(MalformedMarkup)
      case Ok(None) => Ok(Stride([], end + 2))
      case Ok(Some(tag)) => Advanced(end + 2, OfTag(tag, s[end + 2..], html))
  }

  /** Every step goes forward and stays inside the text. */
  function AtMarkup(s: string, html: bool): (r: Result<Stride, MarkupError>)
    requires s != "" && s[0] == '<'
    ensures r.Ok? ==> 0 < r.value.length <= |s|
  {
    if StartsWith(s, "<!--") then Skipped(s, "<!--", "-->")
    else if StartsWith(s, "<![CDATA[") then Skipped(s, "<![CDATA[", "]]>")
    else if !html && StartsWith(s, "<?") then Skipped(s, "<?", "?>")
    else AtTag(s, html)
  }

  function Scanned(s: string, html: bool): Result<seq<Tag>, MarkupError>
    decreases |s|, 1
  {
    match Find(s, "<")
    case None => Ok([])
    case Some(start) => ScannedHere(s[start..], html)
  }

  function ScannedHere(s: string, html: bool): Result<seq<Tag>, MarkupError>
    requires s != "" && s[0] == '<'
    decreases |s|, 0
  {
    match AtMarkup(s, html)
    case Err(_) => Err(MalformedMarkup)
    case Ok(stride) => Contributed(stride.tags, Scanned(s[stride.length..], html))
  }

  function Contributed(tags: seq<Tag>, rest: Result<seq<Tag>, MarkupError>): Result<seq<Tag>, MarkupError>
  {
    match rest
    case Err(_) => Err(MalformedMarkup)
    case Ok(more) => Ok(tags + more)
  }
}
