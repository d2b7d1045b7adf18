/** A reference reader for the XML the printer produces, and the round trip. */
module XmlReader {
  import opened XmlPrinter

  datatype Option<+T> = None | Some(value: T)

  /** An element with character data or child elements. */
  datatype Element = Element(name: string, text: string, children: seq<Element>)

  /** The ASCII part of the name productions [4] and [4a] in section 2.3 of XML 1.0. */
  predicate IsNameStartChar(c: char) {
    IsLetter(c) || c == '_' || c == ':'
  }

  predicate IsNameChar(c: char) {
    IsNameStartChar(c) || '0' <= c <= '9' || c == '-' || c == '.'
  }

  predicate IsName(s: string) {
    s != "" && IsNameStartChar(s[0]) && forall i :: 0 <= i < |s| ==> IsNameChar(s[i])
  }

  /** How many leading characters are name characters. */
  function NameLength(s: string): (n: nat)
    ensures n <= |s|
  {
    if s == "" || !IsNameChar(s[0]) then 0 else 1 + NameLength(s[1..])
  }

  predicate StartsWith(s: string, prefix: string) {
    prefix <= s
  }

  /** One character of character data: a reference to a predefined entity (section 4.6), or a
      character other than '<' and '&' (section 2.4). */
  function ReadChar(s: string): (r: Option<(char, string)>)
    ensures r.Some? ==> |r.value.1| < |s|
  {
    if s == "" || s[0] == '<' then None
    else if s[0] != '&' then Some((s[0], s[1..]))
    else if StartsWith(s, "&amp;") then Some(('&', s[5..]))
    else if StartsWith(s, "&lt;") then Some(('<', s[4..]))
    else if StartsWith(s, "&gt;") then Some(('>', s[4..]))
    else if StartsWith(s, "&quot;") then Some(('"', s[6..]))
    else if StartsWith(s, "&apos;") then Some(('\'', s[6..]))
    else None
  }

  /** Character data up to the next markup. */
  function ReadText(s: string): (r: Option<(string, string)>)
    ensures r.Some? ==> |r.value.1| <= |s|
    decreases |s|
  {
    if s != "" && s[0] == '<' then Some(("", s))
    else
      var c := ReadChar(s);
      if c.None? then None
      else
        var more := ReadText(c.value.1);
        if more.None? then None else Some(([c.value.0] + more.value.0, more.value.1))
  }

  /** An empty-element tag, or a start tag, character data or child elements, and the end tag of the
      same name (productions [39] to [44] in sections 3 and 3.1, without attributes). */
  function ReadElement(s: string): (r: Option<(Element, string)>)
    ensures r.Some? ==> |r.value.1| < |s|
    decreases |s|, 0
  {
    if !StartsWith(s, "<") then None
    else
      var n := NameLength(s[1..]);
      var name, rest := s[1..][..n], s[1..][n..];
      if !IsName(name) then None
      else if StartsWith(rest, "/>") then Some((Element(name, "", []), rest[2..]))
      else if !StartsWith(rest, ">") then None
      else
        var text := ReadText(rest[1..]);
        if text.None? then None
        else
          var children := if text.value.0 != "" then Some(([], text.value.1)) else ReadChildren(text.value.1);
          var end := "</" + name + ">";
          if children.None? || !StartsWith(children.value.1, end) then None
          else Some((Element(name, text.value.0, children.value.0), children.value.1[|end|..]))
  }

  function ReadChildren(s: string): (r: Option<(seq<Element>, string)>)
    ensures r.Some? ==> |r.value.1| <= |s|
    decreases |s|, 1
  {
    if StartsWith(s, "</") then Some(([], s))
    else
      var first := ReadElement(s);
      if first.None? then None
      else
        var others := ReadChildren(first.value.1);
        if others.None? then None else Some(([first.value.0] + others.value.0, others.value.1))
  }

  function ReadDocument(s: string): Option<Element> {
    if !StartsWith(s, XML_DECLARATION) then None
    else
      var root := ReadElement(s[|XML_DECLARATION|..]);
      if root.None? || root.value.1 != "" then None else Some(root.value.0)
  }

  // ----- the tree a value stands for -----

  function TreeOf(name: string, value: Json): Element
    decreases value, 1
  {
    var tag := SanitizeXmlTagName(name);
    match value
    case Null => Element(tag, "", [])
    case Scalar(text) => Element(tag, text, [])
    case Timestamp(iso) => Element(tag, iso, [])
    case Array(items) => Element(tag, "", ItemTrees(items))
    case Object(entries) => Element(tag, "", EntryTrees(entries))
  }

  function ItemTrees(items: seq<Json>): seq<Element>
    decreases items, 0
  {
    if items == [] then [] else [TreeOf("item", items[0])] + ItemTrees(items[1..])
  }

  function EntryTrees(entries: seq<Entry>): seq<Element>
    decreases entries, 0
  {
    if entries == [] then []
    else
      var first := entries[0];
      [TreeOf(first.key, first.value)] + EntryTrees(entries[1..])
  }

  // ----- names -----

  lemma {:induction false} SanitizeKeeps(name: string)
    ensures forall i :: 0 <= i < |Sanitize(name)| ==> IsKept(Sanitize(name)[i])
  {
    if name != "" {
      SanitizeKeeps(name[1..]);
    }
  }

  /** Whatever the key, the tag is a legal name. */
  lemma TagIsName(name: string)
    ensures IsName(SanitizeXmlTagName(name))
  {
    SanitizeKeeps(name);
  }

  lemma {:induction false} SanitizeIdentity(name: string)
    requires forall i :: 0 <= i < |name| ==> IsKept(name[i])
    ensures Sanitize(name) == name
  {
    if name != "" {
      SanitizeIdentity(name[1..]);
    }
  }

  /** How many code units the first characters of a name take. */
  function Units(name: string, n: nat): nat
    requires n <= |name|
  {
    if n == 0 then 0 else Units(name, n - 1) + if name[n - 1] as int > 0xFFFF then 2 else 1
  }

  /** The tag is the name, letters, digits, `_`, `.` and `-` kept in place and a dash for each other code
      unit; it has `item-` before it exactly when it does not start with a letter or `_`, and it is `item`
      if the name is empty. */
  lemma TagFollowsName(name: string, i: nat) returns (front: string, body: string)
    ensures SanitizeXmlTagName(name) == front + body
    ensures name == "" ==> front == "item" && body == ""
    ensures name != "" ==>
              front == if 'A' <= name[0] <= 'Z' || 'a' <= name[0] <= 'z' || name[0] == '_' then "" else "item-"
    ensures |body| == Units(name, |name|)
    ensures i < |name| ==>
              var u, c := Units(name, i), name[i];
              var kept := 'A' <= c <= 'Z' || 'a' <= c <= 'z' || '0' <= c <= '9' || c == '_' || c == '.' || c == '-';
              && u < |body| && body[u] == (if kept then c else '-')
              && (c as int > 0xFFFF ==> u + 1 < |body| && body[u + 1] == '-')
  {
    body := Sanitize(name);
    front := if name == "" then "item"
             else if 'A' <= name[0] <= 'Z' || 'a' <= name[0] <= 'z' || name[0] == '_' then ""
             else "item-";
    if name != "" { FirstKept(name); }
    UnitsSanitized(name, |name|);
    assert name[..|name|] == name;
    hide Units, Sanitize;
    if i < |name| { UnitAt(name, i); }
  }

  lemma UnitAt(name: string, i: nat)
    requires i < |name|
    ensures var u, c := Units(name, i), name[i];
            && u < |Sanitize(name)| && Sanitize(name)[u] == (if IsKept(c) then c else '-')
            && (c as int > 0xFFFF ==> u + 1 < |Sanitize(name)| && Sanitize(name)[u + 1] == '-')
  {
    SanitizedAt(name, i);
    hide Units, Sanitize;
    var u, at := Units(name, i), SanitizeChar(name[i]);
    var part := Sanitize(name)[u..u + |at|];
    assert part[0] == Sanitize(name)[u];
    assert |at| == 2 ==> part[1] == Sanitize(name)[u + 1];
  }

  lemma FirstKept(name: string)
    requires name != ""
    ensures Sanitize(name) != "" && Sanitize(name)[0] == if IsKept(name[0]) then name[0] else '-'
  {
  }

  lemma {:induction false} SanitizeConcat(a: string, b: string)
    ensures Sanitize(a + b) == Sanitize(a) + Sanitize(b)
  {
    if a == "" {
      assert a + b == b;
    } else {
      assert (a + b)[1..] == a[1..] + b;
      SanitizeConcat(a[1..], b);
    }
  }

  lemma {:induction false} UnitsSanitized(name: string, n: nat)
    requires n <= |name|
    ensures |Sanitize(name[..n])| == Units(name, n)
  {
    if n > 0 {
      UnitsSanitized(name, n - 1);
      assert name[..n] == name[..n - 1] + [name[n - 1]];
      SanitizeConcat(name[..n - 1], [name[n - 1]]);
    }
  }

  lemma SanitizeSplit(name: string, i: nat)
    requires i < |name|
    ensures Sanitize(name) == Sanitize(name[..i]) + (SanitizeChar(name[i]) + Sanitize(name[i + 1..]))
  {
    var front, back := name[..i], name[i..];
    assert name == front + back && back != "" && back[0] == name[i] && back[1..] == name[i + 1..];
    SanitizeConcat(front, back);
    hide SanitizeChar;
  }

  lemma SanitizedAt(name: string, i: nat)
    requires i < |name|
    ensures var u, at := Units(name, i), SanitizeChar(name[i]);
            u + |at| <= |Sanitize(name)| && Sanitize(name)[u..u + |at|] == at
  {
    UnitsSanitized(name, i);
    SanitizeSplit(name, i);
    hide Sanitize, SanitizeChar, Units;
    Middle(Sanitize(name), Sanitize(name[..i]), SanitizeChar(name[i]), Sanitize(name[i + 1..]));
  }

  lemma Middle(s: string, a: string, b: string, c: string)
    requires s == a + (b + c)
    ensures |a| + |b| <= |s| && s[|a|..|a| + |b|] == b
  {
  }

  /** Sanitising changes a tag only once. */
  lemma TagIsStable(name: string)
    ensures SanitizeXmlTagName(SanitizeXmlTagName(name)) == SanitizeXmlTagName(name)
  {
    SanitizeKeeps(name);
    SanitizeIdentity(SanitizeXmlTagName(name));
  }

  lemma {:induction false} NameEnds(name: string, rest: string)
    requires forall i :: 0 <= i < |name| ==> IsNameChar(name[i])
    requires rest != "" && !IsNameChar(rest[0])
    ensures NameLength(name + rest) == |name|
  {
    if name == "" {
      assert name + rest == rest;
    } else {
      assert (name + rest)[1..] == name[1..] + rest;
      NameEnds(name[1..], rest);
    }
  }

  lemma TagEnds(tag: string, rest: string)
    requires IsName(tag) && (StartsWith(rest, "/") || StartsWith(rest, ">"))
    ensures NameLength(tag + rest) == |tag|
  {
    NameEnds(tag, rest);
  }

  // ----- text -----

  lemma ReadEscapedChar(c: char, rest: string)
    ensures ReadChar(EscapeChar(c) + rest) == Some((c, rest))
    ensures EscapeChar(c) != "" && EscapeChar(c)[0] != '<'
  {
    var e := EscapeChar(c);
    var s := e + rest;
    assert s[|e|..] == rest;
    assert e <= s && s[0] == e[0];
    if |e| > 1 {
      assert s[1] == e[1] && s[2] == e[2];
    }
  }

  /** Reading escaped text gives the text back, whatever markup follows. */
  lemma {:induction false} ReadEscaped(text: string, rest: string)
    requires StartsWith(rest, "<")
    ensures ReadText(EscapeEach(text) + rest) == Some((text, rest))
  {
    if text == "" {
      assert EscapeEach(text) + rest == rest;
    } else {
      var s := EscapeEach(text) + rest;
      var more := EscapeEach(text[1..]) + rest;
      assert s == EscapeChar(text[0]) + more;
      ReadEscapedChar(text[0], more);
      ReadEscaped(text[1..], rest);
      assert [text[0]] + text[1..] == text;
    }
  }

  // ----- elements -----

  lemma ReadEmpty(tag: string, rest: string)
    requires IsName(tag)
    ensures ReadElement("<" + tag + "/>" + rest) == Some((Element(tag, "", []), rest))
  {
    var s := "<" + tag + "/>" + rest;
    assert s[1..] == tag + ("/>" + rest);
    TagEnds(tag, "/>" + rest);
    assert s[1..][..|tag|] == tag;
    assert s[1..][|tag|..] == "/>" + rest;
    assert ("/>" + rest)[2..] == rest;
  }

  /** A start tag, content that reads as `text` and `children` before the end tag, and the end tag. */
  lemma ReadTagged(tag: string, content: string, text: string, children: seq<Element>, rest: string)
    requires IsName(tag)
    requires var after := "</" + tag + ">" + rest;
             && ReadText(content + after).Some?
             && var (t, u) := ReadText(content + after).value;
             && t == text
             && (if text != "" then children == [] && u == after
                 else ReadChildren(u) == Some((children, after)))
    ensures ReadElement(Tagged(tag, content) + rest) == Some((Element(tag, text, children), rest))
  {
    hide NameLength, ReadText, ReadChildren, IsName;
    var end := "</" + tag + ">";
    var after := end + rest;
    var s := Tagged(tag, content) + rest;
    var tail := ">" + (content + after);
    assert s == "<" + (tag + tail);
    assert s[1..] == tag + tail;
    TagEnds(tag, tail);
    assert s[1..][..|tag|] == tag;
    assert s[1..][|tag|..] == tail;
    assert tail[0] == '>' && tail[1..] == content + after;
    assert end <= after && after[|end|..] == rest;
    assert "<" <= s && ">" <= tail && !("/>" <= tail);
  }

  lemma NodeStarts(name: string, value: Json, rest: string)
    ensures var s := ToXmlNode(name, value) + rest;
            |s| >= 2 && s[0] == '<' && s[1] != '/'
  {
    TagIsName(name);
    hide PrintItems, PrintEntries, SanitizeXmlTagName, EscapeXml;
    var tag := SanitizeXmlTagName(name);
    assert tag[0] != '/';
    assert ToXmlNode(name, value)[1] == tag[0];
  }

  /** Reading what the printer wrote for a value gives the value's tree and leaves the rest. */
  lemma {:induction false} ReadNode(name: string, value: Json, rest: string)
    ensures ReadElement(ToXmlNode(name, value) + rest) == Some((TreeOf(name, value), rest))
    decreases value, 1
  {
    TagIsName(name);
    var tag := SanitizeXmlTagName(name);
    var after := "</" + tag + ">" + rest;
    hide SanitizeXmlTagName, IsName, ReadElement, ReadChildren, ReadText, Tagged, EscapeXml;
    match value
    case Null => ReadEmpty(tag, rest);
    case Scalar(text) => ReadScalar(tag, text, rest);
    case Timestamp(iso) => ReadScalar(tag, iso, rest);
    case Array(items) =>
      ReadItems(items, after);
      ReadList(tag, PrintItems(items), ItemTrees(items), rest);
    case Object(entries) =>
      if entries == [] {
        ReadEmpty(tag, rest);
      } else {
        ReadEntries(entries, after);
        ReadList(tag, PrintEntries(entries), EntryTrees(entries), rest);
      }
  }

  lemma ReadScalar(tag: string, text: string, rest: string)
    requires IsName(tag)
    ensures ReadElement(Tagged(tag, EscapeXml(text)) + rest) == Some((Element(tag, text, []), rest))
  {
    hide EscapeXml, ReadElement;
    var after := "</" + tag + ">" + rest;
    EscapeIsOnePass(text);
    ReadEscaped(text, after);
    ReadTagged(tag, EscapeEach(text), text, [], rest);
  }

  ghost predicate ReadsAsList(content: string, trees: seq<Element>, after: string) {
    && StartsWith(content + after, "<")
    && ReadChildren(content + after) == Some((trees, after))
  }

  lemma ReadList(tag: string, content: string, trees: seq<Element>, rest: string)
    requires IsName(tag) && ReadsAsList(content, trees, "</" + tag + ">" + rest)
    ensures ReadElement(Tagged(tag, content) + rest) == Some((Element(tag, "", trees), rest))
  {
    ReadTagged(tag, content, "", trees, rest);
  }

  lemma {:induction false} ReadItems(items: seq<Json>, after: string)
    requires StartsWith(after, "</")
    ensures ReadsAsList(PrintItems(items), ItemTrees(items), after)
    decreases items, 0
  {
    hide ReadElement, ToXmlNode, TreeOf;
    if items == [] {
      assert PrintItems(items) + after == after;
    } else {
      var more := PrintItems(items[1..]) + after;
      assert PrintItems(items) + after == ToXmlNode("item", items[0]) + more;
      ReadNode("item", items[0], more);
      ReadItems(items[1..], after);
      NodeStarts("item", items[0], more);
    }
  }

  lemma {:induction false} ReadEntries(entries: seq<Entry>, after: string)
    requires StartsWith(after, "</")
    ensures ReadsAsList(PrintEntries(entries), EntryTrees(entries), after)
    decreases entries, 0
  {
    hide ReadElement, ToXmlNode, TreeOf;
    if entries == [] {
      assert PrintEntries(entries) + after == after;
    } else {
      var first := entries[0];
      var more := PrintEntries(entries[1..]) + after;
      assert PrintEntries(entries) + after == ToXmlNode(first.key, first.value) + more;
      ReadNode(first.key, first.value, more);
      ReadEntries(entries[1..], after);
      NodeStarts(first.key, first.value, more);
    }
  }

  /** Printing any body under any root name, then reading, gives back its tree. */
  lemma {:induction false} PrintReadRoundTrip(body: Json, rootElement: string)
    ensures ReadDocument(SerializeToXml(body, rootElement)) == Some(TreeOf(rootElement, body))
  {
    hide ToXmlNode, ReadElement;
    var node := ToXmlNode(rootElement, body);
    var s := XML_DECLARATION + node;
    assert s[|XML_DECLARATION|..] == node;
    ReadNode(rootElement, body, "");
    assert node + "" == node;
  }
}
