/** ParseCSRAttributes (internal/ppext/requests.go): the flat two-section csr_attributes.yaml reader. */
module Attributes {
  import opened Wrappers
  import opened Text

  const EXTENSION_REQUESTS := "extension_requests"
  const CUSTOM_ATTRIBUTES := "custom_attributes"

  predicate IsQuote(c: char) {
    c == '"' || c == '\''
  }

  // The open quote after one more character
  function NextQuote(q: Option<char>, c: char): Option<char> {
    if q.Some? then (if c == q.value then None else q)
    else if IsQuote(c) then Some(c)
    else None
  }

  // Where the comment starts in s when q is the open quote; |s| when there is none
  function CommentAt(s: string, q: Option<char>): (n: nat)
    ensures n <= |s|
  {
    if s == "" || (q == None && s[0] == '#') then 0
    else 1 + CommentAt(s[1..], NextQuote(q, s[0]))
  }

  function WithoutComment(line: string): string {
    line[..CommentAt(line, None)]
  }

  method StripComment(line: string) returns (r: string)
    ensures r == WithoutComment(line)
  {
    var q: Option<char> := None;
    for i := 0 to |line|
      invariant CommentAt(line, None) == i + CommentAt(line[i..], q)
    {
      var c := line[i];
      assert line[i..][1..] == line[i + 1..];
      if q.Some? {
        if c == q.value {
          q := None;
        }
      } else if IsQuote(c) {
        q := Some(c);
      } else if c == '#' {
        return line[..i];
      }
    }
    return line;
  }

  function Unquote(s: string): string {
    if |s| >= 2 && IsQuote(s[0]) && s[|s| - 1] == s[0] then s[1..|s| - 1] else s
  }

  // strings.Cut at the first colon
  function ColonAt(s: string): (n: nat)
    ensures n <= |s| && (n < |s| ==> s[n] == ':') && ':' !in s[..n]
  {
    if s == "" || s[0] == ':' then 0 else 1 + ColonAt(s[1..])
  }

  function TrimColon(s: string): string {
    if s != "" && s[|s| - 1] == ':' then s[..|s| - 1] else s
  }

  datatype Section = Nowhere | Requests | Custom

  datatype Parsed = Parsed(requests: map<string, string>, custom: map<string, string>, section: Section)

  function Put(p: Parsed, k: string, v: string): Parsed {
    match p.section
    case Nowhere => p
    case Requests => p.(requests := p.requests[k := v])
    case Custom => p.(custom := p.custom[k := v])
  }

  // One round of the loop
  function ParseLine(p: Parsed, raw: string): Parsed {
    var line := WithoutComment(raw);
    if TrimSpace(line) == "" then p
    else
      BlankLine(line);
      var indented := line[0] == ' ' || line[0] == '\t';
      var heading := TrimSpace(TrimColon(TrimSpace(line)));
      if heading == EXTENSION_REQUESTS && !indented then p.(section := Requests)
      else if heading == CUSTOM_ATTRIBUTES && !indented then p.(section := Custom)
      else
        var n := ColonAt(line);
        if n == |line| then p else Put(p, TrimSpace(line[..n]), Unquote(TrimSpace(line[n + 1..])))
  }

  lemma BlankLine(line: string)
    ensures TrimSpace("") == "" && (TrimSpace(line) != "" ==> line != "")
  {
  }

  function ParseLines(p: Parsed, lines: seq<string>): Parsed {
    if lines == [] then p else ParseLine(ParseLines(p, lines[..|lines| - 1]), lines[|lines| - 1])
  }

  function ParseText(text: string): Parsed {
    ParseLines(Parsed(map[], map[], Nowhere), Split(text, '\n'))
  }

  method ParseCSRAttributes(text: string) returns (requests: map<string, string>, custom: map<string, string>)
    ensures requests == ParseText(text).requests && custom == ParseText(text).custom
  {
    hide ParseLine;
    requests, custom := map[], map[];
    var cur := Nowhere;
    var lines := Split(text, '\n');
    for i := 0 to |lines|
      invariant ParseLines(Parsed(map[], map[], Nowhere), lines[..i]) == Parsed(requests, custom, cur)
    {
      assert lines[..i + 1][..i] == lines[..i];
      requests, custom, cur := ReadLine(requests, custom, cur, lines[i]);
    }
    assert lines[..|lines|] == lines;
  }

  // The loop body; cur says which of the two maps is being filled
  method ReadLine(requests: map<string, string>, custom: map<string, string>, cur: Section, raw: string)
    returns (requests': map<string, string>, custom': map<string, string>, cur': Section)
    ensures Parsed(requests', custom', cur') == ParseLine(Parsed(requests, custom, cur), raw)
  {
    hide TrimSpace, WithoutComment;
    requests', custom', cur' := requests, custom, cur;
    var line := StripComment(raw);
    if TrimSpace(line) == "" {
      return;
    }
    BlankLine(line);
    var indented := line[0] == ' ' || line[0] == '\t';
    var heading := TrimSpace(TrimColon(TrimSpace(line)));
    if heading == EXTENSION_REQUESTS && !indented {
      cur' := Requests;
      return;
    }
    if heading == CUSTOM_ATTRIBUTES && !indented {
      cur' := Custom;
      return;
    }
    var n := ColonAt(line);
    if n == |line| || cur == Nowhere {
      return;
    }
    var k, v := TrimSpace(line[..n]), Unquote(TrimSpace(line[n + 1..]));
    if cur == Requests {
      requests' := requests'[k := v];
    } else {
      custom' := custom'[k := v];
    }
  }

  // --- comments ---------------------------------------------------------------

  // The quote that is open after reading s
  function QuoteAfter(s: string, q: Option<char>): Option<char> {
    if s == "" then q else QuoteAfter(s[1..], NextQuote(q, s[0]))
  }

  /** A comment starts at the first # outside quotes, and nowhere else. */
  lemma {:induction false} CommentStart(s: string, q: Option<char>)
    ensures var n := CommentAt(s, q);
            && (n < |s| ==> s[n] == '#' && QuoteAfter(s[..n], q) == None)
            && (forall m :: 0 <= m < n && s[m] == '#' ==> QuoteAfter(s[..m], q) != None)
  {
    if s != "" && !(q == None && s[0] == '#') {
      var rest, r, n := s[1..], NextQuote(q, s[0]), CommentAt(s, q);
      CommentStart(rest, r);
      forall m | 1 <= m <= |s|
        ensures QuoteAfter(s[..m], q) == QuoteAfter(rest[..m - 1], r)
      {
        assert s[..m][1..] == rest[..m - 1];
      }
      assert s[..0] == "";
      assert forall m :: 1 <= m < n ==> s[m] == rest[m - 1];
    }
  }

  /** Stripping twice strips once, and only a suffix is ever removed. */
  lemma {:induction false} StripIdempotent(s: string, q: Option<char>)
    ensures CommentAt(s[..CommentAt(s, q)], q) == CommentAt(s, q)
    ensures WithoutComment(WithoutComment(s)) == WithoutComment(s) <= s
  {
    StripAgain(s, q);
    StripAgain(s, None);
  }

  lemma {:induction false} StripAgain(s: string, q: Option<char>)
    ensures CommentAt(s[..CommentAt(s, q)], q) == CommentAt(s, q)
  {
    var n := CommentAt(s, q);
    if n > 0 {
      StripAgain(s[1..], NextQuote(q, s[0]));
      assert s[..n][1..] == s[1..][..n - 1];
    }
  }

  lemma {:induction false} CommentAfterPlain(s: string, rest: string)
    requires forall c <- s :: !IsQuote(c) && c != '#'
    ensures CommentAt(s + rest, None) == |s| + CommentAt(rest, None)
  {
    if s == "" {
      assert s + rest == rest;
    } else {
      assert s[0] in s && (s + rest)[1..] == s[1..] + rest;
      CommentAfterPlain(s[1..], rest);
    }
  }

  // A quoted part holds no comment
  lemma {:induction false} CommentAfterQuoted(s: string, q: char, rest: string)
    requires q !in s
    ensures CommentAt(s + [q] + rest, Some(q)) == |s| + 1 + CommentAt(rest, None)
  {
    var whole := s + [q] + rest;
    if s == "" {
      assert whole[1..] == rest;
    } else {
      assert s[0] in s && whole[1..] == s[1..] + [q] + rest;
      CommentAfterQuoted(s[1..], q, rest);
    }
  }

  // --- the round trip -----------------------------------------------------------

  predicate PlainKey(k: string) {
    k != "" && Trimmed(k) && forall c <- k :: !IsQuote(c) && c !in ":#\n"
  }

  /** How an entry is written: its indentation, its value in double quotes, in single quotes or bare,
      what stands in a comment behind it, and lines without meaning that follow it. */
  datatype Style = Style(indent: string, quote: Option<char>, note: Option<string>, after: seq<string>)

  predicate Indented(l: string) {
    l != "" && (l[0] == ' ' || l[0] == '\t')
  }

  // A line that means nothing: blank, a comment, or indented and without a colon
  predicate Noise(l: string) {
    && '\n' !in l
    && ((forall c <- l :: IsSpace(c))
        || (exists n :: 0 <= n < |l| && l[n] == '#' && forall c <- l[..n] :: IsSpace(c))
        || (Indented(l) && ':' !in l))
  }

  predicate PlainValue(v: string, style: Style) {
    && Indented(style.indent) && (forall c <- style.indent :: c == ' ' || c == '\t')
    && (forall l <- style.after :: Noise(l))
    && '\n' !in v && (style.note.Some? ==> '\n' !in style.note.value)
    && match style.quote
       case Some(q) => IsQuote(q) && q !in v
       case None => Trimmed(v) && forall c <- v :: !IsQuote(c) && c != '#'
  }

  predicate Plain(m: map<string, string>, style: string -> Style) {
    forall k <- m :: PlainKey(k) && PlainValue(m[k], style(k))
  }

  function Quoted(v: string, style: Style): string {
    match style.quote
    case Some(q) => [q] + v + [q]
    case None => v
  }

  function EntryLine(k: string, v: string, style: Style): string {
    style.indent + k + ": " + Quoted(v, style) + if style.note.Some? then " #" + style.note.value else ""
  }

  function EntryLines(keys: seq<string>, m: map<string, string>, style: string -> Style): seq<string>
    requires forall k <- keys :: k in m
  {
    if keys == [] then []
    else
      var last := keys[|keys| - 1];
      EntryLines(keys[..|keys| - 1], m, style) + [EntryLine(last, m[last], style(last))] + style(last).after
  }

  /** The file: anything indented or without meaning, then the two sections, their entries in any
      order, each written in its own style. */
  function RenderLines(preface: seq<string>, requestKeys: seq<string>, requests: map<string, string>,
                       customKeys: seq<string>, custom: map<string, string>, style: string -> Style): seq<string>
    requires (forall k <- requestKeys :: k in requests) && (forall k <- customKeys :: k in custom)
  {
    preface + SectionLines(EXTENSION_REQUESTS, requestKeys, requests, style)
    + SectionLines(CUSTOM_ATTRIBUTES, customKeys, custom, style) + [""]
  }

  // What may stand before the first section
  predicate Preface(l: string) {
    Noise(l) || (Indented(l) && '\n' !in l)
  }

  // The comment goes, and the value is still all there
  lemma EntryStripped(k: string, v: string, style: Style)
    requires PlainKey(k) && PlainValue(v, style)
    ensures WithoutComment(EntryLine(k, v, style)) ==
            style.indent + k + ": " + Quoted(v, style) + if style.note.Some? then " " else ""
  {
    hide CommentAt;
    var line, head, pad := EntryLine(k, v, style), style.indent + k + ": ", if style.note.Some? then " " else "";
    var tail := if style.note.Some? then " #" + style.note.value else "";
    NoteStart(style);
    if style.quote.Some? {
      var q := style.quote.value;
      var rest := v + [q] + tail;
      CommentAfterQuoted(v, q, tail);
      OpenQuote(q, rest);
      CommentAfterPlain(head, [q] + rest);
      assert line == head + ([q] + rest);
      assert line[..|head| + 1 + |v| + 1 + |pad|] == head + Quoted(v, style) + pad;
    } else {
      CommentAfterPlain(head + v, tail);
      assert line == head + v + tail;
      assert line[..|head + v| + |pad|] == head + v + pad;
    }
  }

  lemma NoteStart(style: Style)
    ensures var tail := if style.note.Some? then " #" + style.note.value else "";
            CommentAt(tail, None) == if style.note.Some? then 1 else 0
  {
    if style.note.Some? {
      assert (" #" + style.note.value)[1..][0] == '#';
    }
  }

  lemma OpenQuote(q: char, rest: string)
    requires IsQuote(q)
    ensures CommentAt([q] + rest, None) == 1 + CommentAt(rest, Some(q))
  {
    assert ([q] + rest)[1..] == rest;
  }

  lemma {:induction false} ColonFirst(s: string, rest: string)
    requires ':' !in s
    ensures ColonAt(s + ":" + rest) == |s|
  {
    var whole := s + ":" + rest;
    if s != "" {
      assert s[0] in s;
      assert whole[1..] == s[1..] + ":" + rest;
      ColonFirst(s[1..], rest);
    }
  }

  lemma QuotedValue(v: string, style: Style)
    requires PlainValue(v, style)
    ensures Unquote(Quoted(v, style)) == v && Trimmed(Quoted(v, style))
  {
    if style.quote == None && v != "" {
      assert v[0] in v;
    }
  }

  lemma EntryParsed(p: Parsed, k: string, v: string, style: Style)
    requires PlainKey(k) && PlainValue(v, style)
    ensures ParseLine(p, EntryLine(k, v, style)) == Put(p, k, v)
  {
    hide TrimSpace, WithoutComment, EntryLine, PlainValue, Quoted, Unquote, ParseLine, ColonAt;
    EntryStripped(k, v, style);
    QuotedValue(v, style);
    var indent, quoted, pad := style.indent, Quoted(v, style), if style.note.Some? then " " else "";
    var line := indent + k + ": " + quoted + pad;
    IndentSpaces(v, style);
    EntryNotBlank(indent, k, quoted, pad);
    ColonFirst(indent + k, " " + quoted + pad);
    assert line == indent + k + ":" + (" " + quoted + pad);
    IndentedLine(p, EntryLine(k, v, style), |indent| + |k|);
    TrimPadding(indent, k, "");
    assert line[..|indent| + |k|] == indent + k + "";
    TrimPadding(" ", quoted, pad);
    assert line[|indent| + |k| + 1..] == " " + quoted + pad;
  }

  lemma IndentSpaces(v: string, style: Style)
    requires PlainValue(v, style)
    ensures Indented(style.indent) && (forall c <- style.indent :: IsSpace(c)) && ':' !in style.indent
  {
  }

  // An indented line with a colon is an entry
  lemma IndentedLine(p: Parsed, raw: string, n: nat)
    requires var line := WithoutComment(raw);
             TrimSpace(line) != "" && Indented(line) && ColonAt(line) == n < |line|
    ensures var line := WithoutComment(raw);
            ParseLine(p, raw) == Put(p, TrimSpace(line[..n]), Unquote(TrimSpace(line[n + 1..])))
  {
    hide TrimSpace, WithoutComment, ColonAt, Unquote, TrimColon, Put;
  }

  lemma EntryNotBlank(indent: string, k: string, quoted: string, pad: string)
    requires PlainKey(k) && Trimmed(quoted) && (pad == "" || pad == " ")
    requires forall c <- indent :: IsSpace(c)
    ensures TrimSpace(indent + k + ": " + quoted + pad) != ""
  {
    hide TrimSpace;
    if quoted == "" {
      TrimPadding(indent, k + ":", " " + pad);
      assert indent + (k + ":") + (" " + pad) == indent + k + ": " + quoted + pad;
    } else {
      TrimPadding(indent, k + ": " + quoted, pad);
      assert indent + (k + ": " + quoted) + pad == indent + k + ": " + quoted + pad;
    }
  }

  // --- lines without meaning ----------------------------------------------------------

  /** Noise changes nothing, wherever it stands. */
  lemma NoiseIgnored(p: Parsed, l: string)
    requires Noise(l)
    ensures ParseLine(p, l) == p
  {
    hide TrimSpace, WithoutComment, ColonAt;
    if forall c <- l :: IsSpace(c) {
      PlainUncommented(l);
      AllSpaces(l);
    } else if n :| 0 <= n < |l| && l[n] == '#' && forall c <- l[..n] :: IsSpace(c) {
      CommentLine(l, n);
      AllSpaces(l[..n]);
    } else {
      IndentedIgnored(p, l);
    }
  }

  lemma AllSpaces(l: string)
    requires forall c <- l :: IsSpace(c)
    ensures TrimSpace(l) == ""
  {
    TrimPadding(l, "", "");
    assert l + "" + "" == l;
  }

  lemma CommentLine(l: string, n: nat)
    requires n < |l| && l[n] == '#' && forall c <- l[..n] :: IsSpace(c)
    ensures WithoutComment(l) == l[..n]
  {
    CommentAfterPlain(l[..n], l[n..]);
    assert l[..n] + l[n..] == l;
  }

  /** An indented line is never a heading: without a colon, or before the first section, it is
      passed over. */
  lemma IndentedIgnored(p: Parsed, l: string)
    requires Indented(l) && (':' !in l || p.section == Nowhere)
    ensures ParseLine(p, l) == p
  {
    hide TrimSpace, TrimColon, Unquote, CommentAt;
    var line := WithoutComment(l);
    assert line <= l;
    BlankLine(line);
    if line != "" {
      assert line[0] == l[0];
      assert forall i :: 0 <= i < |line| ==> line[i] == l[i];
    }
  }

  lemma {:induction false} NoisesIgnored(p: Parsed, lines: seq<string>)
    requires forall l <- lines :: Noise(l)
    ensures ParseLines(p, lines) == p
  {
    hide ParseLine, Noise;
    if lines != [] {
      NoisesIgnored(p, lines[..|lines| - 1]);
      NoiseIgnored(p, lines[|lines| - 1]);
    }
  }

  lemma {:induction false} PrefaceIgnored(p: Parsed, lines: seq<string>)
    requires p.section == Nowhere && forall l <- lines :: Preface(l)
    ensures ParseLines(p, lines) == p
  {
    hide ParseLine, Noise;
    if lines != [] {
      var last := lines[|lines| - 1];
      assert last in lines && Preface(last);
      PrefaceIgnored(p, lines[..|lines| - 1]);
      if Noise(last) {
        NoiseIgnored(p, last);
      } else {
        IndentedIgnored(p, last);
      }
    }
  }

  lemma PlainUncommented(s: string)
    requires forall c <- s :: !IsQuote(c) && c != '#'
    ensures WithoutComment(s) == s
  {
    CommentAfterPlain(s, "");
    assert s + "" == s == s[..|s|];
  }

  lemma HeadingText(name: string)
    requires name != "" && forall i :: 0 <= i < |name| ==> !IsQuote(name[i]) && name[i] != '#' && !IsSpace(name[i])
    ensures WithoutComment(name + ":") == name + ":"
    ensures TrimSpace(name + ":") == name + ":" && TrimSpace(TrimColon(name + ":")) == name
  {
    hide TrimSpace;
    var line := name + ":";
    PlainUncommented(line);
    hide WithoutComment;
    TrimPadding("", line, "");
    TrimPadding("", name, "");
    assert "" + line + "" == line && "" + name + "" == name;
    assert TrimColon(line) == name;
  }

  lemma HeadingsParsed(p: Parsed)
    ensures ParseLine(p, EXTENSION_REQUESTS + ":") == p.(section := Requests)
    ensures ParseLine(p, CUSTOM_ATTRIBUTES + ":") == p.(section := Custom)
    ensures ParseLine(p, "") == p
  {
    hide TrimSpace, WithoutComment, TrimColon;
    HeadingText(EXTENSION_REQUESTS);
    HeadingText(CUSTOM_ATTRIBUTES);
    assert EXTENSION_REQUESTS[0] == 'e' && CUSTOM_ATTRIBUTES[0] == 'c';
    EmptyLine();
  }

  lemma EmptyLine()
    ensures TrimSpace(WithoutComment("")) == ""
  {
  }

  lemma {:induction false} ParseLinesAppend(p: Parsed, a: seq<string>, b: seq<string>)
    ensures ParseLines(p, a + b) == ParseLines(ParseLines(p, a), b)
  {
    hide ParseLine;
    if b == [] {
      assert a + b == a;
    } else {
      ParseLinesAppend(p, a, b[..|b| - 1]);
      assert (a + b)[..|a + b| - 1] == a + b[..|b| - 1];
    }
  }

  function PutAll(p: Parsed, keys: seq<string>, m: map<string, string>): Parsed
    requires forall k <- keys :: k in m
  {
    if keys == [] then p
    else Put(PutAll(p, keys[..|keys| - 1], m), keys[|keys| - 1], m[keys[|keys| - 1]])
  }

  lemma {:induction false} EntriesParsed(p: Parsed, keys: seq<string>, m: map<string, string>, style: string -> Style)
    requires forall k <- keys :: k in m
    requires Plain(m, style)
    ensures ParseLines(p, EntryLines(keys, m, style)) == PutAll(p, keys, m)
  {
    hide ParseLine, EntryLine, PlainKey, Noise;
    if keys != [] {
      var init, last := keys[..|keys| - 1], keys[|keys| - 1];
      var line, after := EntryLine(last, m[last], style(last)), style(last).after;
      EntriesParsed(p, init, m, style);
      EntryParsed(PutAll(p, init, m), last, m[last], style(last));
      OneLine(ParseLines(p, EntryLines(init, m, style)), line);
      ParseLinesAppend(p, EntryLines(init, m, style), [line]);
      ParseLinesAppend(p, EntryLines(init, m, style) + [line], after);
      NoisesIgnored(PutAll(p, keys, m), after);
    }
  }

  // The entries of m among these keys
  function Selected(keys: seq<string>, m: map<string, string>): map<string, string> {
    map k | k in m && k in keys :: m[k]
  }

  lemma SelectedNext(keys: seq<string>, m: map<string, string>, earlier: map<string, string>)
    requires keys != [] && keys[|keys| - 1] in m
    ensures var k := keys[|keys| - 1];
            earlier + Selected(keys, m) == (earlier + Selected(keys[..|keys| - 1], m))[k := m[k]]
  {
    var init, last := keys[..|keys| - 1], keys[|keys| - 1];
    assert forall k :: k in keys <==> k in init || k == last;
  }

  lemma {:induction false} PutAllIs(p: Parsed, keys: seq<string>, m: map<string, string>)
    requires forall k <- keys :: k in m
    ensures p.section == Requests ==> PutAll(p, keys, m) == p.(requests := p.requests + Selected(keys, m))
    ensures p.section == Custom ==> PutAll(p, keys, m) == p.(custom := p.custom + Selected(keys, m))
  {
    hide Selected;
    if keys != [] {
      PutAllIs(p, keys[..|keys| - 1], m);
      SelectedNext(keys, m, p.requests);
      SelectedNext(keys, m, p.custom);
    } else {
      SelectedNone(m);
    }
  }

  lemma SelectedNone(m: map<string, string>)
    ensures Selected([], m) == map[]
  {
  }

  function SectionLines(heading: string, keys: seq<string>, m: map<string, string>, style: string -> Style): seq<string>
    requires forall k <- keys :: k in m
  {
    [heading + ":"] + EntryLines(keys, m, style)
  }

  lemma SectionParsed(p: Parsed, heading: string, keys: seq<string>, m: map<string, string>, style: string -> Style)
    requires Plain(m, style) && forall k :: k in keys <==> k in m
    requires heading == EXTENSION_REQUESTS || heading == CUSTOM_ATTRIBUTES
    ensures heading == EXTENSION_REQUESTS ==>
              ParseLines(p, SectionLines(heading, keys, m, style)) == p.(requests := p.requests + m, section := Requests)
    ensures heading == CUSTOM_ATTRIBUTES ==>
              ParseLines(p, SectionLines(heading, keys, m, style)) == p.(custom := p.custom + m, section := Custom)
  {
    hide ParseLine, EntryLines, ParseLines;
    var q := ParseLine(p, heading + ":");
    HeadingsParsed(p);
    OneLine(p, heading + ":");
    ParseLinesAppend(p, [heading + ":"], EntryLines(keys, m, style));
    EntriesParsed(q, keys, m, style);
    PutAllIs(q, keys, m);
    assert Selected(keys, m) == m;
    assert EXTENSION_REQUESTS[0] == 'e' && CUSTOM_ATTRIBUTES[0] == 'c';
  }

  /** Two maps written out, with any indentation, any mixture of quoted and bare values, and blank
      lines and comments anywhere, and read back are the two maps, # inside quoted values included. */
  lemma AttributesRoundTrip(preface: seq<string>, requestKeys: seq<string>, requests: map<string, string>,
                            customKeys: seq<string>, custom: map<string, string>, style: string -> Style)
    requires Plain(requests, style) && Plain(custom, style) && forall l <- preface :: Preface(l)
    requires forall k :: k in requestKeys <==> k in requests
    requires forall k :: k in customKeys <==> k in custom
    ensures var p := ParseText(Join(RenderLines(preface, requestKeys, requests, customKeys, custom, style), '\n'));
            p.requests == requests && p.custom == custom
  {
    hide ParseLine, ParseLines, Split, Join, SectionLines, Plain, Preface, EXTENSION_REQUESTS, CUSTOM_ATTRIBUTES;
    var lines := RenderLines(preface, requestKeys, requests, customKeys, custom, style);
    LinesHaveNoNewline(preface, requestKeys, requests, customKeys, custom, style);
    SplitJoin(lines, '\n');
    var start := Parsed(map[], map[], Nowhere);
    var a := SectionLines(EXTENSION_REQUESTS, requestKeys, requests, style);
    var b := SectionLines(CUSTOM_ATTRIBUTES, customKeys, custom, style);
    PrefaceIgnored(start, preface);
    ParseLinesAppend(start, preface, a);
    SectionParsed(start, EXTENSION_REQUESTS, requestKeys, requests, style);
    var p := ParseLines(start, a);
    SectionParsed(p, CUSTOM_ATTRIBUTES, customKeys, custom, style);
    ParseLinesAppend(start, preface + a, b);
    ParseLinesAppend(start, preface + a + b, [""]);
    OneLine(ParseLines(p, b), "");
    HeadingsParsed(ParseLines(p, b));
    assert map[] + requests == requests && map[] + custom == custom;
  }

  lemma OneLine(p: Parsed, line: string)
    ensures ParseLines(p, [line]) == ParseLine(p, line)
  {
    hide ParseLine;
    assert [line][..0] == [] && ParseLines(p, []) == p;
  }

  lemma {:induction false} EntriesHaveNoNewline(keys: seq<string>, m: map<string, string>, style: string -> Style)
    requires Plain(m, style) && (forall k <- keys :: k in m)
    ensures forall l <- EntryLines(keys, m, style) :: '\n' !in l
  {
    if keys != [] {
      var last := keys[|keys| - 1];
      EntriesHaveNoNewline(keys[..|keys| - 1], m, style);
      EntryHasNoNewline(last, m[last], style(last));
      NoiseHasNoNewline(style(last).after);
    }
  }

  lemma EntryHasNoNewline(k: string, v: string, style: Style)
    requires PlainKey(k) && PlainValue(v, style)
    ensures '\n' !in EntryLine(k, v, style) && forall l <- style.after :: Noise(l)
  {
    hide Noise;
  }

  lemma NoiseHasNoNewline(lines: seq<string>)
    requires forall l <- lines :: Noise(l)
    ensures forall l <- lines :: '\n' !in l
  {
  }

  lemma LinesHaveNoNewline(preface: seq<string>, requestKeys: seq<string>, requests: map<string, string>,
                           customKeys: seq<string>, custom: map<string, string>, style: string -> Style)
    requires Plain(requests, style) && Plain(custom, style) && forall l <- preface :: Preface(l)
    requires (forall k <- requestKeys :: k in requests) && (forall k <- customKeys :: k in custom)
    ensures forall l <- RenderLines(preface, requestKeys, requests, customKeys, custom, style) :: '\n' !in l
  {
    EntriesHaveNoNewline(requestKeys, requests, style);
    EntriesHaveNoNewline(customKeys, custom, style);
    hide EntryLines, Plain;
    assert forall l <- preface :: '\n' !in l;
    assert '\n' !in EXTENSION_REQUESTS + ":" && '\n' !in CUSTOM_ATTRIBUTES + ":";
  }
}
