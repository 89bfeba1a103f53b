/** scan_markup_tags and its helpers in static_export.rs, as loops over a cursor. */
module MarkupScanner {
  import opened Base
  import opened Paths
  import opened Whitespace
  import opened MarkupSyntax

  function Shifted(n: nat, i: Option<nat>): Option<nat>
  {
    match i
    case None => None
    case Some(k) => Some(n + k)
  }

  lemma TagEndStep(text: string, i: nat, quote: Option<char>)
    requires i <= |text|
    ensures i == |text| ==> TagEnd(text[i..], quote) == None
    ensures i < |text| && (quote.Some? || IsQuote(text[i]) || text[i] != '>') ==>
              Shifted(i, TagEnd(text[i..], quote))
              == Shifted(i + 1, TagEnd(text[i + 1..], if quote.Some? then if text[i] == quote.value then None else quote
                                                      else if IsQuote(text[i]) then Some(text[i]) else None))
    ensures i < |text| && quote == None && text[i] == '>' ==> TagEnd(text[i..], quote) == Some(0)
  {
    if i < |text| {
      assert text[i..][1..] == text[i + 1..] && text[i..][0] == text[i];
    }
  }

  /** The first '>' outside quotes, from `bodyStart` on. */
  method MarkupTagEnd(text: string, bodyStart: nat) returns (r: Option<nat>)
    requires bodyStart <= |text|
    ensures r == Shifted(bodyStart, TagEnd(text[bodyStart..], None))
    ensures r.Some? ==> bodyStart <= r.value < |text|
  {
    hide TagEnd;
    var quote: Option<char> := None;
    for i := bodyStart to |text|
      invariant Shifted(bodyStart, TagEnd(text[bodyStart..], None)) == Shifted(i, TagEnd(text[i..], quote))
    {
      TagEndStep(text, i, quote);
      if quote.Some? {
        if text[i] == quote.value {
          quote := None;
        }
      } else if IsQuote(text[i]) {
        quote := Some(text[i]);
      } else if text[i] == '>' {
        return Some(i);
      }
    }
    TagEndStep(text, |text|, quote);
    return None;
  }

  function Following<T>(done: seq<T>, rest: Option<seq<T>>): Option<seq<T>>
  {
    if rest == None then None else Some(done + rest.value)
  }

  lemma FollowingMore<T>(done: seq<T>, x: T, rest: Option<seq<T>>)
    ensures Following(done, Following([x], rest)) == Following(done + [x], rest)
    ensures Following([], rest) == rest
  {
    if rest.Some? {
      assert done + ([x] + rest.value) == done + [x] + rest.value;
      assert [] + rest.value == rest.value;
    }
  }

  method ParseAttributes(text: string) returns (r: Option<seq<Attribute>>)
    ensures r == Attributes(text)
  {
    var input := text;
    var attributes: seq<Attribute> := [];
    FollowingMore([], ("", ""), Attributes(text));
    while input != ""
      invariant Attributes(text) == Following(attributes, Attributes(input))
      decreases |input|
    {
      var trimmed := TrimStart(input);
      assert attributes + [] == attributes;
      if trimmed == "" || trimmed == "/" {
        return Some(attributes);
      }
      var name := AttributeName(trimmed);
      if name == None {
        return None;
      }
      var value := AttributeValue(name.value.rest);
      if value == None {
        return None;
      }
      FollowingMore(attributes, (name.value.item, value.value.item), Attributes(value.value.rest));
      attributes := attributes + [(name.value.item, value.value.item)];
      input := value.value.rest;
    }
    assert Attributes("") == Some([]) && attributes + [] == attributes;
    return Some(attributes);
  }

  method ParseTagBody(text: string) returns (r: Result<Option<Tag>, MarkupError>)
    ensures r == TagBody(text)
    ensures r.Ok? && r.value.Some? ==>
              && IsName(r.value.value.name) && r.value.value.closing == (text[0] == '/')
              && (r.value.value.closing ==> r.value.value.attributes == [])
    ensures r.Err? ==> text != "" && text[0] !in "!?/"
  {
    if text == "" || text[0] == '!' || text[0] == '?' {
      return Ok(None);
    }
    var closing := text[0] == '/';
    var body := TrimStart(if closing then text[1..] else text);
    var n := Before(body, "/>");
    var name := AsciiLower(body[..n]);
    if !IsName(name) {
      return Ok(None);
    }
    if closing {
      return Ok(Some(Tag(name, true, [], None, false)));
    }
    var attributes := ParseAttributes(body[n..]);
    return if attributes == None then Err(MalformedMarkup)
           else Ok(Some(Tag(name, false, attributes.value, None, false)));
  }

  lemma RawTextStep(tail: string, from: nat, name: string)
    requires from <= |tail|
    ensures var found := Find(AsciiLower(tail)[from..], "</" + name);
            if found == None then RawText(tail, from, name) == Err(MalformedMarkup)
            else
              var at := from + found.value;
              && at + 2 + |name| <= |tail|
              && RawText(tail, from, name)
                 == if IsLookAlike(tail, at + 2 + |name|) then RawText(tail, at + 2 + |name|, name)
                   else ClosingAt(tail, at, name)
  {
    hide Find, ClosingAt, AsciiLower, IsLookAlike;
  }

  /** The raw text before the element's own end tag, and the length up to the end of that tag. */
  method ScanRawTextElement(tail: string, name: string) returns (r: Result<(string, nat), MarkupError>)
    ensures r == (match RawText(tail, 0, name)
                  case Err(_) => Err(MalformedMarkup)
                  case Ok(raw) => Ok((tail[..raw.0], raw.1)))
  {
    hide ClosesCleanly, AsciiLower, TagEnd, RawText, Find, EndsTagName;
    var lowerTail := AsciiLower(tail);
    var searchStart := 0;
    while true
      invariant searchStart <= |tail| == |lowerTail|
      invariant RawText(tail, 0, name) == RawText(tail, searchStart, name)
      decreases |tail| - searchStart
    {
      RawTextStep(tail, searchStart, name);
      var found := Find(lowerTail[searchStart..], "</" + name);
      if found == None {
        return Err(MalformedMarkup);
      }
      var at := searchStart + found.value;
      var after := at + 2 + |name|;
      if after < |tail| && !EndsTagName(tail[after]) {
        searchStart := after;
        continue;
      }
      var close := MarkupTagEnd(tail, at + 1);
      if close == None || !ClosesCleanly(tail[at + 1..close.value], name) {
        return Err(MalformedMarkup);
      }
      return Ok((tail[..at], close.value + 1));
    }
  }

  lemma ContributedMore(tags: seq<Tag>, more: seq<Tag>, rest: Result<seq<Tag>, MarkupError>)
    ensures Contributed(tags, Contributed(more, rest)) == Contributed(tags + more, rest)
    ensures Contributed([], rest) == rest
  {
    if rest.Ok? {
      assert tags + (more + rest.value) == tags + more + rest.value;
      assert [] + rest.value == rest.value;
    } else {
      assert rest.error == MalformedMarkup;
    }
  }

  lemma MarkupFollows(s: string, start: nat, html: bool)
    requires Find(s, "<") == Some(start)
    ensures start < |s| && s[start] == '<'
    ensures var stride := AtMarkup(s[start..], html);
            Scanned(s, html) == if stride.Err? then Err(MalformedMarkup)
                                else Contributed(stride.value.tags, Scanned(s[start..][stride.value.length..], html))
  {
    hide AtMarkup;
  }

  method ScanMarkupTags(text: string, html: bool) returns (r: Result<seq<Tag>, MarkupError>)
    ensures r == Scanned(text, html)
  {
    hide Scanned, ScannedHere, AtMarkup, Contributed, Find;
    var tags: seq<Tag> := [];
    var cursor := 0;
    ContributedMore([], [], Scanned(text, html));
    assert text[0..] == text;
    while cursor < |text|
      invariant cursor <= |text|
      invariant Scanned(text, html) == Contributed(tags, Scanned(text[cursor..], html))
      decreases |text| - cursor
    {
      var rest := text[cursor..];
      var start := Find(rest, "<");
      if start == None {
        break;
      }
      MarkupFollows(rest, start.value, html);
      var stride := ScanMarkup(rest[start.value..], html);
      if stride.Err? {
        FailureContributes(tags);
        return Err(MalformedMarkup);
      }
      var length := start.value + stride.value.length;
      assert rest[start.value..][stride.value.length..] == text[cursor + length..];
      ContributedMore(tags, stride.value.tags, Scanned(text[cursor + length..], html));
      tags := tags + stride.value.tags;
      cursor := cursor + length;
    }
    NothingContributes(tags, text[cursor..], html);
    return Ok(tags);
  }

  lemma FailureContributes(tags: seq<Tag>)
    ensures Contributed(tags, Err(MalformedMarkup)) == Err(MalformedMarkup)
  {
  }

  lemma NothingContributes(tags: seq<Tag>, rest: string, html: bool)
    requires rest == "" || Find(rest, "<") == None
    ensures Contributed(tags, Scanned(rest, html)) == Ok(tags)
  {
    assert tags + [] == tags;
  }

  /** At a '<': a comment, a section or an instruction is skipped; otherwise a tag may follow. */
  method ScanMarkup(rest: string, html: bool) returns (r: Result<Stride, MarkupError>)
    requires rest != "" && rest[0] == '<'
    ensures r == AtMarkup(rest, html)
    ensures r.Ok? ==> 0 < r.value.length <= |rest|
  {
    hide AtTag, Find;
    if StartsWith(rest, "<!--") {
      return Skipped(rest, "<!--", "-->");
    }
    if StartsWith(rest, "<![CDATA[") {
      return Skipped(rest, "<![CDATA[", "]]>");
    }
    if !html && StartsWith(rest, "<?") {
      return Skipped(rest, "<?", "?>");
    }
    r := ScanTag(rest, html);
  }

  method ScanTag(rest: string, html: bool) returns (r: Result<Stride, MarkupError>)
    requires rest != "" && rest[0] == '<'
    ensures r == AtTag(rest, html)
  {
    hide Find, TagEnd, OfTag, TagBody, LooksLikeMarkup, Trim;
    var end := MarkupTagEnd(rest, 1);
    if end == None {
      return if LooksLikeMarkup(rest[1..]) then Err(MalformedMarkup) else Ok(Stride([], 1));
    }
    var parsed := ParseTagBody(Trim(rest[1..end.value]));
    if parsed.Err? {
      return Err(MalformedMarkup);
    }
    if parsed.value == None {
      return Ok(Stride([], end.value + 1));
    }
    var tag := parsed.value.value;
    var stride := ScanAfterTag(tag, rest[end.value + 1..], html);
    return Advanced(end.value + 1, stride);
  }

  method ScanAfterTag(tag: Tag, after: string, html: bool) returns (r: Result<Stride, MarkupError>)
    ensures r == OfTag(tag, after, html)
  {
    hide RawText, WithRawText, IsRawText;
    if !tag.closing && html && tag.name == "plaintext" {
      return Ok(Stride([tag], |after|));
    }
    if !tag.closing && IsRawText(tag.name, html) {
      var raw := ScanRawTextElement(after, tag.name);
      return if raw.Err? then Err(MalformedMarkup) else Ok(Stride([WithRawText(tag, raw.value.0)], raw.value.1));
    }
    return Ok(Stride([tag], 0));
  }
}
