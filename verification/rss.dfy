/** Content acquisition (`src/services/rss.ts`): the latest item of an RSS feed, or the
    article text of a web page, fetched through an ordered list of CORS proxies. Each proxy
    attempt is an abstract reply; parsing is an abstract function from text to a document. */
module Rss {
  import opened Wrappers
  import opened Text
  import opened Dom
  import opened Fallback
  import opened Proxies

  const FeedExhausted := "Failed to fetch news from RSS feed with all available proxies"
  const PageExhausted := "Failed to fetch news article with all available proxies. Try using an RSS feed instead."

  /** What one proxy request produced: a thrown error (network failure or the 8-second
      abort), or a response with its `ok` flag and its body text. */
  datatype Reply = Threw | Response(ok: bool, body: string)

  /** What `response.json()` yields: a parse failure (which throws) or an object whose
      `contents` field may be absent. */
  datatype Json = NotJson | JsonObject(contents: Option<string>)

  /** The parsers the browser supplies: `DOMParser` in XML and in HTML mode, and JSON. */
  datatype Parsers = Parsers(xml: string -> seq<Node>, html: string -> seq<Node>, json: string -> Json)

  /** JavaScript `a || b` on strings: `a` unless it is empty. */
  function OrElse(a: string, b: string): string
  {
    if a != "" then a else b
  }

  /** `el?.textContent || ''`. */
  function TextOrEmpty(el: Option<Node>): string
  {
    match el
    case Some(n) => TextContent(n)
    case None => ""
  }

  function HasParserError(doc: seq<Node>): bool
  {
    First(doc, [Tag("parsererror")]).Some?
  }

  // ================================================================ feed path

  /** The title of a feed item: the text of its first `title` descendant. */
  function ItemTitle(item: Node): string
  {
    TextOrEmpty(Within(item, [Tag("title")]))
  }

  /** The body of a feed item: the `content:encoded` text when non-empty, else the
      `description` text, else the empty string. */
  function ItemBody(item: Node): (r: string)
    ensures TextOrEmpty(Within(item, [Tag("content:encoded")])) != "" ==>
      r == TextContent(Within(item, [Tag("content:encoded")]).value)
    ensures TextOrEmpty(Within(item, [Tag("content:encoded")])) == "" ==>
      r == TextOrEmpty(Within(item, [Tag("description")]))
  {
    OrElse(TextOrEmpty(Within(item, [Tag("content:encoded")])),
           TextOrEmpty(Within(item, [Tag("description")])))
  }

  /** The text one feed item contributes: title and body as two paragraphs, provided at
      least one of them is non-empty. */
  function ItemText(item: Node): Option<string>
  {
    var title := ItemTitle(item);
    var body := ItemBody(item);
    if title != "" || body != "" then Some(title + "\n\n" + body) else None
  }

  /** The result of one feed proxy attempt: `None` means "try the next proxy". A success
      comes from an OK, well-formed reply and is the title and body of the element
      `querySelector("item")` finds. */
  function FeedAttempt(reply: Reply, parse: string -> seq<Node>): (r: Option<string>)
    ensures r.Some? ==> reply.Response? && reply.ok && !HasParserError(parse(reply.body))
    ensures r.Some? ==>
      var item := First(parse(reply.body), [Tag("item")]);
      item.Some? && r.value == ItemTitle(item.value) + "\n\n" + ItemBody(item.value)
  {
    match reply
    case Threw => None
    case Response(ok, body) =>
      if !ok then None
      else
        var doc := parse(body);
        if HasParserError(doc) then None
        else
          var items := QueryAll(doc, [Tag("item")]);
          FirstIsHeadOfQueryAll(doc, [Tag("item")]);
          if |items| == 0 then None else ItemText(items[0])
  }

  /** `getLatestNews`: the first feed proxy, in order, whose attempt succeeds decides the
      result; `tried` proxies were contacted. `replies[i]` is what proxy `i` answers. */
  method GetLatestNews(replies: seq<Reply>, parse: string -> seq<Node>) returns (r: Result<string, string>, tried: nat)
    requires |replies| == |FeedProxies|
    ensures tried <= |FeedProxies|
    ensures r.Ok? ==> 1 <= tried && FeedAttempt(replies[tried - 1], parse) == Some(r.value)
    ensures forall j :: 0 <= j < tried - 1 ==> FeedAttempt(replies[j], parse).None?
    ensures r.Err? ==> tried == |FeedProxies| && r.error == FeedExhausted
    ensures r.Err? <==> forall j :: 0 <= j < |FeedProxies| ==> FeedAttempt(replies[j], parse).None?
  {
    var attempt := (reply: Reply) => FeedAttempt(reply, parse);
    assert forall reply :: attempt(reply) == FeedAttempt(reply, parse);
    var found;
    found, tried := FirstSuccess(replies, attempt);
    r := if found.Some? then Ok(found.value) else Err(FeedExhausted);
  }

  /** A feed attempt fails on a non-OK status, a thrown error, a parser error, an empty item
      list, or a first item with neither title nor body; otherwise it returns the first item's
      title and body as two paragraphs. */
  lemma FeedAttemptCases(reply: Reply, parse: string -> seq<Node>)
    ensures FeedAttempt(reply, parse).Some? <==>
      && reply.Response? && reply.ok
      && !HasParserError(parse(reply.body))
      && |QueryAll(parse(reply.body), [Tag("item")])| > 0
      && var item := QueryAll(parse(reply.body), [Tag("item")])[0];
         (ItemTitle(item) != "" || ItemBody(item) != "")
    ensures FeedAttempt(reply, parse).Some? ==>
      reply.Response? && First(parse(reply.body), [Tag("item")]).Some? &&
      var item := First(parse(reply.body), [Tag("item")]).value;
      FeedAttempt(reply, parse).value == ItemTitle(item) + "\n\n" + ItemBody(item)
  {
    if reply.Response? {
      FirstIsHeadOfQueryAll(parse(reply.body), [Tag("item")]);
    }
  }

  /** Only the first item of a feed is read: two feeds whose first items agree give the same
      attempt result, whatever follows. */
  lemma FeedReadsOnlyFirstItem(body1: string, body2: string, parse: string -> seq<Node>)
    requires !HasParserError(parse(body1)) && !HasParserError(parse(body2))
    requires First(parse(body1), [Tag("item")]) == First(parse(body2), [Tag("item")])
    ensures FeedAttempt(Response(true, body1), parse) == FeedAttempt(Response(true, body2), parse)
  {
    FirstIsHeadOfQueryAll(parse(body1), [Tag("item")]);
    FirstIsHeadOfQueryAll(parse(body2), [Tag("item")]);
  }

  // ================================================================ page path

  /** The content-container selectors, most specific first. */
  const ContentSelectors: seq<Selector> := [
    Tag("article"), Tag("main"), AttrEquals("role", "main"),
    Class("content"), Class("article-content"), Class("post-content"), Class("entry-content"),
    Class("news-content"), Class("story-body"), Class("article-body"), Class("mc-article-body"),
    Class("content-text"), Class("entry-title")
  ]

  /** The subtrees removed from the container before its text is read. */
  const NoiseSelectors: seq<Selector> := [
    Tag("script"), Tag("style"), Tag("iframe"), Tag("nav"), Tag("header"), Tag("footer"),
    Tag("aside"), Class("ad"), Class("advertisement"), Class("social-share"), Class("related"),
    Class("comments")
  ]

  /** The title selectors, tried in order. */
  const TitleSelectors: seq<Selector> := [
    Tag("h1"), Class("title"), Class("headline"), Class("article-title"), Class("post-title"),
    Class("entry-title")
  ]

  /** A page whose body is shorter than this is skipped before parsing. */
  const MinPageLength := 100
  /** The paragraph fallback needs more than this many `p` elements. */
  const MinParagraphCount := 3
  /** The paragraph fallback keeps paragraphs whose text is longer than this. */
  const MinParagraphLength := 50
  /** A page attempt succeeds only when the cleaned content is longer than this. */
  const MinContentLength := 100

  /** The page text an attempt obtained: the raw body, or the JSON `contents` field for an
      enveloping proxy; `None` when the request threw, was not OK, or the JSON did not parse. */
  function PageHtml(proxy: PageProxy, reply: Reply, json: string -> Json): Option<string>
  {
    match reply
    case Threw => None
    case Response(ok, body) =>
      if !ok then None
      else if proxy.envelope then
        match json(body)
        case NotJson => None
        case JsonObject(contents) => contents
      else Some(body)
  }

  /** Which content selector supplies the container: the first, in list order, that matches
      anything in the document. */
  function ContainerSelector(doc: seq<Node>): (r: Option<nat>)
    ensures r.Some? ==> r.value < |ContentSelectors| && First(doc, [ContentSelectors[r.value]]).Some?
    ensures r.Some? ==> forall j :: 0 <= j < r.value ==> First(doc, [ContentSelectors[j]]).None?
    ensures r.None? <==> forall j :: 0 <= j < |ContentSelectors| ==> First(doc, [ContentSelectors[j]]).None?
  {
    var matches := (s: Selector) => First(doc, [s]).Some?;
    var r := FirstIndex(ContentSelectors, matches);
    assert forall j :: 0 <= j < |ContentSelectors| ==> matches(ContentSelectors[j]) == First(doc, [ContentSelectors[j]]).Some?;
    r
  }

  /** The paragraphs of `ps` whose text is longer than 50 characters, in their order. */
  function LongParagraphs(ps: seq<Node>): (r: seq<Node>)
    ensures forall i :: 0 <= i < |r| ==> |TextContent(r[i])| > MinParagraphLength && r[i] in ps
    ensures forall i :: 0 <= i < |ps| && |TextContent(ps[i])| > MinParagraphLength ==> ps[i] in r
  {
    if |ps| == 0 then []
    else (if |TextContent(ps[0])| > MinParagraphLength then [ps[0]] else []) + LongParagraphs(ps[1..])
  }

  /** Keeping long paragraphs commutes with concatenation, so document order is kept. */
  lemma {:induction false} LongParagraphsAppend(a: seq<Node>, b: seq<Node>)
    ensures LongParagraphs(a + b) == LongParagraphs(a) + LongParagraphs(b)
  {
    if |a| == 0 {
      assert a + b == b;
    } else {
      assert (a + b)[1..] == a[1..] + b;
      LongParagraphsAppend(a[1..], b);
    }
  }

  /** The paragraph fallback: with more than three `p` elements, a fresh `div` holding the
      long ones; otherwise nothing. */
  function ParagraphFallback(doc: seq<Node>): (r: Option<Node>)
    ensures r.Some? <==> |QueryAll(doc, [Tag("p")])| > MinParagraphCount
    ensures r.Some? ==> r.value == Element("div", [], map[], LongParagraphs(QueryAll(doc, [Tag("p")])))
  {
    var ps := QueryAll(doc, [Tag("p")]);
    if |ps| > MinParagraphCount then Some(Element("div", [], map[], LongParagraphs(ps))) else None
  }

  /** Where the container came from: an element of the document found by a selector (edits
      to it change the document), or a detached fallback `div`. */
  datatype Container = Selected(selector: Selector, node: Node) | Detached(node: Node)

  /** The container search: the first matching content selector, else the fallback. */
  function FindContainer(doc: seq<Node>): (r: Option<Container>)
    ensures ContainerSelector(doc).Some? ==>
      var s := ContentSelectors[ContainerSelector(doc).value];
      r == Some(Selected(s, First(doc, [s]).value))
    ensures ContainerSelector(doc).None? ==>
      (r.Some? <==> |QueryAll(doc, [Tag("p")])| > MinParagraphCount)
    ensures ContainerSelector(doc).None? ==>
      r == (if ParagraphFallback(doc).Some? then Some(Detached(ParagraphFallback(doc).value)) else None)
  {
    match ContainerSelector(doc)
    case Some(i) =>
      var s := ContentSelectors[i];
      Some(Selected(s, First(doc, [s]).value))
    case None =>
      match ParagraphFallback(doc)
      case Some(div) => Some(Detached(div))
      case None => None
  }

  /** The container with its noise subtrees removed: same element, no noise left inside, and
      its text and elements are exactly the container's text and elements outside the noise. */
  function Clean(n: Node): (r: Node)
    ensures n.Element? ==> SameLabel(n, r) && First(r.children, NoiseSelectors) == None
    ensures n.Element? ==> TextContent(r) == OutsideText(n.children, NoiseSelectors)
    ensures n.Element? ==> Labels(r.children) == OutsideLabels(n.children, NoiseSelectors)
    ensures n.TextNode? ==> r == n
  {
    if n.Element? then
      PruneKeepsOutsideText(n.children, NoiseSelectors);
      PruneKeepsOutsideLabels(n.children, NoiseSelectors);
      n.(children := Prune(n.children, NoiseSelectors))
    else n
  }

  /** The document as the title search sees it: removing noise from a selected container
      edits the document itself; the fallback `div` is detached and leaves it unchanged. */
  function DocumentAfterCleaning(doc: seq<Node>, c: Container): seq<Node>
  {
    match c
    case Selected(s, _) => ReplaceFirst(doc, s, Clean).0
    case Detached(_) => doc
  }

  /** The trimmed text of the first element `s` matches, or empty. */
  function TitleCandidate(doc: seq<Node>, s: Selector): string
  {
    Trim(TextOrEmpty(First(doc, [s])))
  }

  /** The title candidate of each selector in `sels`, in order. */
  function TitleCandidates(doc: seq<Node>, sels: seq<Selector>): (r: seq<string>)
    ensures |r| == |sels|
    ensures forall j :: 0 <= j < |sels| ==> r[j] == TitleCandidate(doc, sels[j])
  {
    if |sels| == 0 then [] else [TitleCandidate(doc, sels[0])] + TitleCandidates(doc, sels[1..])
  }

  /** The position of the first non-empty string. */
  function FirstNonEmpty(texts: seq<string>): (r: Option<nat>)
    ensures r.Some? ==> r.value < |texts| && texts[r.value] != ""
    ensures r.Some? ==> forall j :: 0 <= j < r.value ==> texts[j] == ""
    ensures r.None? <==> forall j :: 0 <= j < |texts| ==> texts[j] == ""
  {
    if |texts| == 0 then None
    else if texts[0] != "" then Some(0)
    else match FirstNonEmpty(texts[1..])
      case None => None
      case Some(k) => Some(k + 1)
  }

  /** The page title: the trimmed text of the first title selector, in list order, whose first
      match has non-blank text; empty when there is none. */
  function FindTitle(doc: seq<Node>): (r: string)
    ensures r == "" <==> forall j :: 0 <= j < |TitleSelectors| ==> TitleCandidate(doc, TitleSelectors[j]) == ""
    ensures r != "" ==> exists i :: (0 <= i < |TitleSelectors| && r == TitleCandidate(doc, TitleSelectors[i])
      && forall j :: 0 <= j < i ==> TitleCandidate(doc, TitleSelectors[j]) == "")
  {
    var texts := TitleCandidates(doc, TitleSelectors);
    match FirstNonEmpty(texts)
    case None => ""
    case Some(k) => texts[k]
  }

  /** Article extraction from a parsed page: container, noise removal, title, and the
      100-character floor on the cleaned content. */
  function ExtractArticle(doc: seq<Node>): (r: Option<string>)
    ensures r.Some? ==> FindContainer(doc).Some? && Trim(TextContent(FindContainer(doc).value.node)) != ""
    ensures r.Some? ==> |r.value| > MinContentLength + 2
  {
    match FindContainer(doc)
    case None => None
    case Some(c) =>
      if Trim(TextContent(c.node)) == "" then None
      else
        var title := FindTitle(DocumentAfterCleaning(doc, c));
        var content := Trim(TextContent(Clean(c.node)));
        if |content| > MinContentLength then Some(title + "\n\n" + content) else None
  }

  /** Landmark precedence: once any content selector matches anything, the container comes
      from a selector and the paragraph fallback never runs, however many paragraphs exist. */
  lemma LandmarkBeatsFallback(doc: seq<Node>, j: nat)
    requires j < |ContentSelectors| && First(doc, [ContentSelectors[j]]).Some?
    ensures FindContainer(doc).Some? && FindContainer(doc).value.Selected?
    ensures ContainerSelector(doc).value <= j
  {
  }

  /** Noise goes before the title search: for a selected container, the document the title
      search reads is the original with the cleaned container put at the container's position
      and nothing else changed, so a fresh query finds the cleaned container, with no noise
      left inside it. */
  lemma NoiseGoneBeforeTitleSearch(doc: seq<Node>)
    requires FindContainer(doc).Some? && FindContainer(doc).value.Selected?
    ensures var c := FindContainer(doc).value;
      && FirstPath(doc, [c.selector]).Some?
      && var p := FirstPath(doc, [c.selector]).value;
      && NodeAt(doc, p) == c.node
      && DocumentAfterCleaning(doc, c) == ReplaceAt(doc, p, Clean(c.node))
    ensures var c := FindContainer(doc).value;
      && First(DocumentAfterCleaning(doc, c), [c.selector]) == Some(Clean(c.node))
      && (c.node.Element? ==> First(Clean(c.node).children, NoiseSelectors) == None)
  {
    var c := FindContainer(doc).value;
    assert forall n: Node :: n.Element? ==> SameLabel(n, Clean(n));
    ReplaceFirstFindsEdited(doc, c.selector, Clean);
    ReplaceFirstIsLocal(doc, c.selector, Clean);
  }

  /** A successful extraction is the title, a blank line, and the cleaned content, which is
      trimmed, longer than 100 characters and free of noise; and conversely a found container
      with non-blank text whose cleaned content is long enough always yields that article. */
  lemma ArticleShape(doc: seq<Node>)
    ensures ExtractArticle(doc).Some? ==> FindContainer(doc).Some?
    ensures ExtractArticle(doc).Some? ==>
      var c := FindContainer(doc).value;
      var content := Trim(TextContent(Clean(c.node)));
      && ExtractArticle(doc).value == FindTitle(DocumentAfterCleaning(doc, c)) + "\n\n" + content
      && |content| > MinContentLength
      && Trim(content) == content
      && (c.node.Element? ==> First(Clean(c.node).children, NoiseSelectors) == None)
    ensures FindContainer(doc).Some? ==>
      var c := FindContainer(doc).value;
      var content := Trim(TextContent(Clean(c.node)));
      Trim(TextContent(c.node)) != "" && |content| > MinContentLength ==>
        ExtractArticle(doc) == Some(FindTitle(DocumentAfterCleaning(doc, c)) + "\n\n" + content)
  {
    if ExtractArticle(doc).Some? {
      var c := FindContainer(doc).value;
      var text := TextContent(Clean(c.node));
      assert Trim(TextContent(c.node)) != "";
      assert ExtractArticle(doc).value == FindTitle(DocumentAfterCleaning(doc, c)) + "\n\n" + Trim(text);
      TrimIdempotent(text);
    }
  }

  /** A container whose text is blank ends the attempt, whatever the rest of the page holds. */
  lemma BlankContainerFails(doc: seq<Node>)
    requires FindContainer(doc).Some? && Trim(TextContent(FindContainer(doc).value.node)) == ""
    ensures ExtractArticle(doc).None?
  {
  }

  /** A page attempt succeeds only with a usable page text of at least 100 characters that
      parses without error and yields an article. */
  lemma PageAttemptCases(proxy: PageProxy, reply: Reply, parsers: Parsers)
    ensures PageAttempt(proxy, reply, parsers).Some? <==>
      && PageHtml(proxy, reply, parsers.json).Some?
      && var html := PageHtml(proxy, reply, parsers.json).value;
         && |html| >= MinPageLength
         && !HasParserError(parsers.html(html))
         && ExtractArticle(parsers.html(html)).Some?
    ensures reply.Threw? || (reply.Response? && !reply.ok) ==> PageAttempt(proxy, reply, parsers).None?
  {
  }

  /** The result of one page proxy attempt: `None` means "try the next proxy". A success
      needs an OK reply and is an extracted article, so it is longer than the 100-character
      floor plus the blank line after the title. */
  function PageAttempt(proxy: PageProxy, reply: Reply, parsers: Parsers): (r: Option<string>)
    ensures r.Some? ==> reply.Response? && reply.ok
    ensures r.Some? ==> |r.value| > MinContentLength + 2
  {
    match PageHtml(proxy, reply, parsers.json)
    case None => None
    case Some(html) =>
      if |html| < MinPageLength then None
      else
        var doc := parsers.html(html);
        if HasParserError(doc) then None else ExtractArticle(doc)
  }

  /** `getNewsFromUrl`: the first page proxy, in order, whose attempt succeeds decides the
      result; `tried` proxies were contacted. `replies[i]` is what proxy `i` answers. */
  method GetNewsFromUrl(replies: seq<Reply>, parsers: Parsers) returns (r: Result<string, string>, tried: nat)
    requires |replies| == |PageProxies|
    ensures tried <= |PageProxies|
    ensures r.Ok? ==> 1 <= tried && PageAttempt(PageProxies[tried - 1], replies[tried - 1], parsers) == Some(r.value)
    ensures forall j :: 0 <= j < tried - 1 ==> PageAttempt(PageProxies[j], replies[j], parsers).None?
    ensures r.Err? ==> tried == |PageProxies| && r.error == PageExhausted
    ensures r.Err? <==> forall j :: 0 <= j < |PageProxies| ==> PageAttempt(PageProxies[j], replies[j], parsers).None?
  {
    var attempts := seq(|PageProxies|, i requires 0 <= i < |PageProxies| => (PageProxies[i], replies[i]));
    var attempt := (a: (PageProxy, Reply)) => PageAttempt(a.0, a.1, parsers);
    var found;
    found, tried := FirstSuccess(attempts, attempt);
    assert forall j :: 0 <= j < |attempts| ==> attempts[j] == (PageProxies[j], replies[j]);
    assert forall j :: 0 <= j < |attempts| ==> attempt(attempts[j]) == PageAttempt(PageProxies[j], replies[j], parsers);
    r := if found.Some? then Ok(found.value) else Err(PageExhausted);
  }
}
