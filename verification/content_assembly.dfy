/**
 * The content-assembly helpers of flask_app/utils.py with their I/O taken
 * out: mapping a search response to articles (`search_articles`), gathering
 * the text of a scraped page (`fetch_article_content`) and joining the
 * articles' texts into one block (`concatenate_content`).
 */
module ContentAssembly {
  import opened Wrappers
  import opened PyStr

  // ---------------------------------------------------------------------------
  // search_articles
  // ---------------------------------------------------------------------------

  /** One JSON search item; a missing key is `None`. */
  datatype Item = Item(title: Option<string>, link: Option<string>)

  /** A search result as the rest of the pipeline sees it. */
  datatype Article = Article(title: string, link: string)

  /**
   * What the search request produced: an exception (from the request or from
   * decoding its JSON), or a status code and the optional `items` list.
   */
  datatype SearchResponse = RequestRaised | Response(statusCode: int, items: Option<seq<Item>>)

  /** The response carries a result list: status 200 and an `items` key. */
  predicate HasResults(response: SearchResponse)
  {
    response.Response? && response.statusCode == 200 && response.items.Some?
  }

  /**
   * One `{title, link}` per item, in order, with "No Title" and "No Link"
   * standing in for missing keys; an exception, a status other than 200 or
   * a missing `items` key gives no articles.
   */
  method SearchArticles(response: SearchResponse) returns (articles: seq<Article>)
    ensures !HasResults(response) ==> articles == []
    ensures HasResults(response) ==>
      var items := response.items.value;
      && |articles| == |items|
      && forall i :: 0 <= i < |items| ==>
           articles[i] == Article(items[i].title.GetOr("No Title"), items[i].link.GetOr("No Link"))
  {
    if response.RequestRaised? {
      return [];
    }
    if response.statusCode != 200 {
      return [];
    }
    if response.items.None? {
      return [];
    }
    var items := response.items.value;
    articles := [];
    for i := 0 to |items|
      invariant |articles| == i
      invariant forall j :: 0 <= j < i ==>
        articles[j] == Article(items[j].title.GetOr("No Title"), items[j].link.GetOr("No Link"))
    {
      var title := items[i].title.GetOr("No Title");
      var link := items[i].link.GetOr("No Link");
      articles := articles + [Article(title, link)];
    }
  }

  // ---------------------------------------------------------------------------
  // fetch_article_content
  // ---------------------------------------------------------------------------

  /** The accumulation `content += text + "\n"` over the tag texts, skipping empty ones. */
  function KeptText(texts: seq<string>): (r: string)
    ensures r == "" || r[|r| - 1] == '\n'
    ensures (forall i :: 0 <= i < |texts| ==> texts[i] == "") ==> r == ""
  {
    if texts == [] then ""
    else
      var last := texts[|texts| - 1];
      KeptText(texts[..|texts| - 1]) + (if last != "" then last + "\n" else "")
  }

  /** The non-empty texts, in order. */
  function NonEmpty(texts: seq<string>): (r: seq<string>)
    ensures |r| <= |texts|
    ensures forall i :: 0 <= i < |r| ==> r[i] != "" && r[i] in texts
  {
    if texts == [] then []
    else
      var init, last := texts[..|texts| - 1], texts[|texts| - 1];
      var r := NonEmpty(init);
      assert forall t :: t in init ==> t in texts;
      if last != "" then r + [last] else r
  }

  /** Lines joined with "\n" between them (Python's `"\n".join(lines)`). */
  function JoinLines(lines: seq<string>): string
  {
    if lines == [] then ""
    else if |lines| == 1 then lines[0]
    else JoinLines(lines[..|lines| - 1]) + "\n" + lines[|lines| - 1]
  }

  /** What `get_text(strip=True)` yields: no whitespace at either end. */
  predicate IsStrippedText(t: string)
  {
    t == [] || (!IsSpace(t[0]) && !IsSpace(t[|t| - 1]))
  }

  /** The accumulation is the non-empty texts joined by newlines, plus one final newline. */
  lemma {:induction false} KeptTextIsJoinedLines(texts: seq<string>)
    ensures KeptText(texts) == if NonEmpty(texts) == [] then "" else JoinLines(NonEmpty(texts)) + "\n"
    decreases |texts|
  {
    if texts != [] {
      var init, last := texts[..|texts| - 1], texts[|texts| - 1];
      KeptTextIsJoinedLines(init);
      var lines := NonEmpty(init);
      if last != "" && lines != [] {
        assert (lines + [last])[..|lines|] == lines;
      }
    }
  }

  /** Joined non-empty stripped lines start with the first line's first character and end with the last line's last. */
  lemma {:induction false} JoinLinesEnds(lines: seq<string>)
    requires lines != []
    requires forall i :: 0 <= i < |lines| ==> lines[i] != ""
    ensures var j := JoinLines(lines);
      j != [] && j[0] == lines[0][0] && j[|j| - 1] == lines[|lines| - 1][|lines[|lines| - 1]| - 1]
    decreases |lines|
  {
    if |lines| > 1 {
      JoinLinesEnds(lines[..|lines| - 1]);
    }
  }

  /** The joined lines of stripped non-empty texts start and end with a non-space character. */
  lemma JoinedLinesAreStripped(texts: seq<string>)
    requires forall i :: 0 <= i < |texts| ==> IsStrippedText(texts[i])
    requires NonEmpty(texts) != []
    ensures var joined := JoinLines(NonEmpty(texts));
      joined != [] && !IsSpace(joined[0]) && !IsSpace(joined[|joined| - 1])
  {
    var lines := NonEmpty(texts);
    var first, last := lines[0], lines[|lines| - 1];
    assert first in texts && last in texts;
    assert IsStrippedText(first) && IsStrippedText(last);
    JoinLinesEnds(lines);
  }

  /**
   * When every tag text comes already stripped, the page text is exactly the
   * non-empty tag texts joined by newlines.
   */
  lemma PageTextIsJoinedLines(texts: seq<string>)
    requires forall i :: 0 <= i < |texts| ==> IsStrippedText(texts[i])
    ensures Strip(KeptText(texts)) == JoinLines(NonEmpty(texts))
  {
    KeptTextIsJoinedLines(texts);
    if NonEmpty(texts) == [] {
      StripEmpty();
    } else {
      JoinedLinesAreStripped(texts);
      StripLineEnd(JoinLines(NonEmpty(texts)));
    }
  }

  /**
   * The text loop of `fetch_article_content` over the tag texts of the
   * page, `None` when fetching or parsing the page raised: the stripped
   * accumulation, or "" on an exception.
   */
  method FetchArticleContent(page: Option<seq<string>>) returns (text: string)
    ensures page.None? ==> text == ""
    ensures page.Some? ==> text == Strip(KeptText(page.value))
    ensures page.Some? && (forall i :: 0 <= i < |page.value| ==> IsStrippedText(page.value[i])) ==>
      text == JoinLines(NonEmpty(page.value))
  {
    if page.None? {
      return "";
    }
    var texts := page.value;
    var content := "";
    for i := 0 to |texts|
      invariant content == KeptText(texts[..i])
    {
      assert texts[..i + 1][..i] == texts[..i];
      if texts[i] != "" {
        content := content + texts[i] + "\n";
      }
    }
    assert texts[..|texts|] == texts;
    text := Strip(content);
    if forall i :: 0 <= i < |texts| ==> IsStrippedText(texts[i]) {
      PageTextIsJoinedLines(texts);
    }
  }

  // ---------------------------------------------------------------------------
  // concatenate_content
  // ---------------------------------------------------------------------------

  /** The block one article contributes. */
  function Segment(title: string, text: string): string
  {
    "\n\n### " + title + "\n" + text
  }

  /** The segments of all articles in order; `fetch` gives an article's text from its link. */
  function Concatenation(articles: seq<Article>, fetch: string -> string): string
  {
    if articles == [] then ""
    else
      var last := articles[|articles| - 1];
      Concatenation(articles[..|articles| - 1], fetch) + Segment(last.title, fetch(last.link))
  }

  /** Concatenating two article lists concatenates their blocks. */
  lemma {:induction false} ConcatenationAppend(a: seq<Article>, b: seq<Article>, fetch: string -> string)
    ensures Concatenation(a + b, fetch) == Concatenation(a, fetch) + Concatenation(b, fetch)
    decreases |b|
  {
    if b != [] {
      var init, last := b[..|b| - 1], b[|b| - 1];
      assert (a + b)[..|a + b| - 1] == a + init;
      assert (a + b)[|a + b| - 1] == last;
      ConcatenationAppend(a, init, fetch);
      assert Concatenation(b, fetch) == Concatenation(init, fetch) + Segment(last.title, fetch(last.link));
    } else {
      assert a + b == a;
    }
  }

  /** A non-empty article list yields the first article's block followed by the rest's. */
  lemma ConcatenationStartsWithFirst(articles: seq<Article>, fetch: string -> string)
    requires articles != []
    ensures Concatenation(articles, fetch)
      == Segment(articles[0].title, fetch(articles[0].link)) + Concatenation(articles[1..], fetch)
    ensures Concatenation(articles, fetch) != ""
  {
    assert articles == [articles[0]] + articles[1..];
    ConcatenationAppend([articles[0]], articles[1..], fetch);
    assert [articles[0]][..0] == [];
  }

  /**
   * `concatenate_content`: fetches each article's text by its link and
   * appends its block, in order; no articles give "".
   */
  method ConcatenateContent(articles: seq<Article>, fetch: string -> string) returns (fullText: string)
    ensures fullText == Concatenation(articles, fetch)
    ensures articles == [] <==> fullText == ""
  {
    fullText := "";
    for i := 0 to |articles|
      invariant fullText == Concatenation(articles[..i], fetch)
    {
      assert articles[..i + 1][..i] == articles[..i];
      var articleText := fetch(articles[i].link);
      fullText := fullText + Segment(articles[i].title, articleText);
    }
    assert articles[..|articles|] == articles;
    if articles != [] {
      ConcatenationStartsWithFirst(articles, fetch);
    }
  }
}
