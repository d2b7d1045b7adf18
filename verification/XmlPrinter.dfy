/** The XML printer for JSON-like response bodies. */
module XmlPrinter {

  /** A response body. `Null` stands for null and undefined, `Scalar` for a string, number or boolean
      in its string form, `Timestamp` for a date in its ISO form; object entries are in order. */
  datatype Json =
    | Null
    | Scalar(text: string)
    | Timestamp(iso: string)
    | Array(items: seq<Json>)
    | Object(entries: seq<Entry>)

  datatype Entry = Entry(key: string, value: Json)

  const XML_DECLARATION := "<?xml version=\"1.0\" encoding=\"UTF-8\"?>"

  function ReplaceAll(s: string, c: char, with: string): string {
    if s == "" then "" else (if s[0] == c then with else [s[0]]) + ReplaceAll(s[1..], c, with)
  }

  /** Five passes over the whole string, the ampersand first. */
  function EscapeXml(s: string): string {
    ReplaceAll(ReplaceAll(ReplaceAll(ReplaceAll(ReplaceAll(s,
      '&', "&amp;"), '<', "&lt;"), '>', "&gt;"), '"', "&quot;"), '\'', "&apos;")
  }

  predicate IsLetter(c: char) {
    'A' <= c <= 'Z' || 'a' <= c <= 'z'
  }

  predicate IsKept(c: char) {
    IsLetter(c) || '0' <= c <= '9' || c == '_' || c == '.' || c == '-'
  }

  /** Every other code unit becomes a dash; characters beyond the basic plane are two code units. */
  function SanitizeChar(c: char): string {
    if IsKept(c) then [c] else if c as int > 0xFFFF then "--" else "-"
  }

  function Sanitize(name: string): string {
    if name == "" then "" else SanitizeChar(name[0]) + Sanitize(name[1..])
  }

  function SanitizeXmlTagName(name: string): string {
    var normalized := Sanitize(name);
    if normalized == "" then "item"
    else if IsLetter(normalized[0]) || normalized[0] == '_' then normalized
    else "item-" + normalized
  }

  function Tagged(tag: string, content: string): string {
    "<" + tag + ">" + content + "</" + tag + ">"
  }

  function ToXmlNode(name: string, value: Json): string
    decreases value, 1
  {
    var tag := SanitizeXmlTagName(name);
    match value
    case Null => "<" + tag + "/>"
    case Array(items) => Tagged(tag, PrintItems(items))
    case Timestamp(iso) => Tagged(tag, EscapeXml(iso))
    case Object(entries) => if entries == [] then "<" + tag + "/>" else Tagged(tag, PrintEntries(entries))
    case Scalar(text) => Tagged(tag, EscapeXml(text))
  }

  function PrintItems(items: seq<Json>): string
    decreases items, 0
  {
    if items == [] then "" else ToXmlNode("item", items[0]) + PrintItems(items[1..])
  }

  function PrintEntries(entries: seq<Entry>): string
    decreases entries, 0
  {
    if entries == [] then ""
    else
      var first := entries[0];
      ToXmlNode(first.key, first.value) + PrintEntries(entries[1..])
  }

  function SerializeToXml(body: Json, rootElement: string := "response"): string {
    XML_DECLARATION + ToXmlNode(rootElement, body)
  }

  // ----- escaping is one pass, character by character -----

  function EscapeChar(c: char): string {
    match c
    case '&' => "&amp;"
    case '<' => "&lt;"
    case '>' => "&gt;"
    case '"' => "&quot;"
    case '\'' => "&apos;"
    case _ => [c]
  }

  function EscapeEach(s: string): string {
    if s == "" then "" else EscapeChar(s[0]) + EscapeEach(s[1..])
  }

  lemma {:induction false} ReplaceAllConcat(a: string, b: string, c: char, with: string)
    ensures ReplaceAll(a + b, c, with) == ReplaceAll(a, c, with) + ReplaceAll(b, c, with)
  {
    if a == "" {
      assert a + b == b;
    } else {
      assert (a + b)[1..] == a[1..] + b;
      ReplaceAllConcat(a[1..], b, c, with);
    }
  }

  lemma {:induction false} ReplaceAllAbsent(s: string, c: char, with: string)
    requires c !in s
    ensures ReplaceAll(s, c, with) == s
  {
    if s != "" {
      ReplaceAllAbsent(s[1..], c, with);
    }
  }

  lemma EscapeXmlConcat(a: string, b: string)
    ensures EscapeXml(a + b) == EscapeXml(a) + EscapeXml(b)
  {
    var a1, b1 := ReplaceAll(a, '&', "&amp;"), ReplaceAll(b, '&', "&amp;");
    var a2, b2 := ReplaceAll(a1, '<', "&lt;"), ReplaceAll(b1, '<', "&lt;");
    var a3, b3 := ReplaceAll(a2, '>', "&gt;"), ReplaceAll(b2, '>', "&gt;");
    var a4, b4 := ReplaceAll(a3, '"', "&quot;"), ReplaceAll(b3, '"', "&quot;");
    ReplaceAllConcat(a, b, '&', "&amp;");
    ReplaceAllConcat(a1, b1, '<', "&lt;");
    ReplaceAllConcat(a2, b2, '>', "&gt;");
    ReplaceAllConcat(a3, b3, '"', "&quot;");
    ReplaceAllConcat(a4, b4, '\'', "&apos;");
  }

  lemma ReplaceOne(c: char, d: char, with: string)
    ensures ReplaceAll([c], d, with) == if c == d then with else [c]
  {
    assert ReplaceAll([c][1..], d, with) == "";
  }

  lemma EscapeXmlOne(c: char)
    ensures EscapeXml([c]) == EscapeChar(c)
  {
    hide ReplaceAll;
    ReplaceOne(c, '&', "&amp;");
    ReplaceOne(c, '<', "&lt;");
    ReplaceOne(c, '>', "&gt;");
    ReplaceOne(c, '"', "&quot;");
    ReplaceOne(c, '\'', "&apos;");
    ReplaceAllAbsent("&amp;", '<', "&lt;");
    ReplaceAllAbsent("&amp;", '>', "&gt;");
    ReplaceAllAbsent("&amp;", '"', "&quot;");
    ReplaceAllAbsent("&amp;", '\'', "&apos;");
    ReplaceAllAbsent("&lt;", '>', "&gt;");
    ReplaceAllAbsent("&lt;", '"', "&quot;");
    ReplaceAllAbsent("&lt;", '\'', "&apos;");
    ReplaceAllAbsent("&gt;", '"', "&quot;");
    ReplaceAllAbsent("&gt;", '\'', "&apos;");
    ReplaceAllAbsent("&quot;", '\'', "&apos;");
  }

  /** The five successive passes do what one pass over the characters does. */
  lemma {:induction false} EscapeIsOnePass(s: string)
    ensures EscapeXml(s) == EscapeEach(s)
  {
    if s != "" {
      assert s == [s[0]] + s[1..];
      hide EscapeXml;
      EscapeXmlConcat([s[0]], s[1..]);
      EscapeXmlOne(s[0]);
      EscapeIsOnePass(s[1..]);
    }
  }
}
