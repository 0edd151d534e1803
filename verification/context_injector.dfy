/**
 * The context injector: the first half of `generate_flexible_answer`
 * (flask_app/utils.py). It decides what text is sent to the language model:
 * the query as asked, or the query embedded in a prompt after (a prefix of)
 * the retrieved article content.
 */
module ContextInjector {
  import opened Wrappers
  import opened PyStr

  /** Phrases that mark a question about the conversation itself. */
  const MetaQuestionKeywords: seq<string> :=
    ["what did i ask", "previous question", "earlier question",
     "what were we discussing", "what was my question"]

  /** Character budget for the embedded content. */
  const MaxChars: nat := 3000

  /** The instruction lines that open a content-augmented prompt (note the space after "clearly."). */
  const InstructionHeader: string :=
    "Based on the following articles, answer the query clearly. \n"
    + "Always include sources and links at the end if relevant.\n"
    + "Also remember our conversation history when responding.\n\n"

  const ContentMarker: string := "---CONTENT---\n"
  const QuestionMarker: string := "\n\n---QUESTION---\n"

  function Min(a: int, b: int): int { if a <= b then a else b }

  // ---------------------------------------------------------------------------
  // Meta-question detection
  // ---------------------------------------------------------------------------

  /** Python's `any(k in text for k in keywords)`. */
  function AnyKeywordIn(keywords: seq<string>, text: string): (r: bool)
    ensures r <==> exists i :: 0 <= i < |keywords| && Contains(text, keywords[i])
  {
    if keywords == [] then false
    else
      var rest := AnyKeywordIn(keywords[1..], text);
      assert rest <==> exists i :: 1 <= i < |keywords| && Contains(text, keywords[i]) by {
        if rest {
          var j :| 0 <= j < |keywords| - 1 && Contains(text, keywords[1..][j]);
          assert keywords[1..][j] == keywords[j + 1];
        }
        if i :| 1 <= i < |keywords| && Contains(text, keywords[i]) {
          assert keywords[1..][i - 1] == keywords[i];
        }
      }
      Contains(text, keywords[0]) || rest
  }

  /** A query is a meta-question when some keyword occurs in the lower-cased query. */
  function IsMetaQuestion(query: string): (r: bool)
    ensures r <==> exists i :: 0 <= i < |MetaQuestionKeywords| && Contains(Lower(query), MetaQuestionKeywords[i])
  {
    AnyKeywordIn(MetaQuestionKeywords, Lower(query))
  }

  /** Detection ignores case: lower-casing the query first changes nothing. */
  lemma IsMetaQuestionIgnoresCase(query: string)
    ensures IsMetaQuestion(Lower(query)) == IsMetaQuestion(query)
  {
    LowerIdempotent(query);
  }

  // ---------------------------------------------------------------------------
  // Truncation and prompt composition
  // ---------------------------------------------------------------------------

  /** Python truthiness of the optional `content` argument: `None` and `""` are both "no content". */
  predicate HasContent(content: Option<string>)
  {
    content.Some? && content.value != ""
  }

  /** `content[:maxChars]`: a hard cut at a character boundary. */
  function TrimContent(content: string, maxChars: nat): (r: string)
    ensures |r| == Min(|content|, maxChars)
    ensures r <= content
  {
    if |content| <= maxChars then content else content[..maxChars]
  }

  /** The content-augmented prompt. */
  function ComposePrompt(trimmed: string, query: string): (r: string)
    ensures InstructionHeader <= r
    ensures |r| == |InstructionHeader| + |ContentMarker| + |trimmed| + |QuestionMarker| + |query|
    ensures r[|r| - |query|..] == query
  {
    InstructionHeader + ContentMarker + trimmed + QuestionMarker + query
  }

  /**
   * Reads a composed prompt back, given the length of the embedded content:
   * the header, the two markers at their places, and what lies between and after them.
   */
  function ParsePrompt(p: string, contentLength: nat): Option<(string, string)>
  {
    var start := |InstructionHeader| + |ContentMarker|;
    var stop := start + contentLength;
    if |p| < stop + |QuestionMarker| then None
    else if p[..|InstructionHeader|] != InstructionHeader then None
    else if p[|InstructionHeader|..start] != ContentMarker then None
    else if p[stop..stop + |QuestionMarker|] != QuestionMarker then None
    else Some((p[start..stop], p[stop + |QuestionMarker|..]))
  }

  /** A string cut at four ascending indices is the concatenation of its five pieces. */
  lemma CutInFive(p: string, i1: nat, i2: nat, i3: nat, i4: nat)
    requires i1 <= i2 <= i3 <= i4 <= |p|
    ensures p == p[..i1] + p[i1..i2] + p[i2..i3] + p[i3..i4] + p[i4..]
  {
  }

  /** The five pieces of a concatenation sit at the offsets their lengths give. */
  lemma PiecesOfFive(a: string, b: string, c: string, d: string, e: string)
    ensures var p, i1 := a + b + c + d + e, |a|;
      var i2 := i1 + |b|;
      var i3 := i2 + |c|;
      var i4 := i3 + |d|;
      && p[..i1] == a && p[i1..i2] == b && p[i2..i3] == c && p[i3..i4] == d && p[i4..] == e
  {
    var p, i1 := a + b + c + d + e, |a|;
    var i2 := i1 + |b|;
    var i3 := i2 + |c|;
    var i4 := i3 + |d|;
    assert p[..i1] == a;
    assert p[i1..i2] == b;
    assert p[i2..i3] == c;
    assert p[i3..i4] == d;
    assert p[i4..] == e;
  }

  /** Every composed prompt reads back as the content and query it was built from. */
  lemma ParseComposedPrompt(trimmed: string, query: string)
    ensures ParsePrompt(ComposePrompt(trimmed, query), |trimmed|) == Some((trimmed, query))
  {
    PiecesOfFive(InstructionHeader, ContentMarker, trimmed, QuestionMarker, query);
  }

  /** Whatever reads back as a prompt is exactly the composition of what was read. */
  lemma ComposeParsedPrompt(p: string, contentLength: nat)
    requires ParsePrompt(p, contentLength).Some?
    ensures var (trimmed, query) := ParsePrompt(p, contentLength).value;
      |trimmed| == contentLength && ComposePrompt(trimmed, query) == p
  {
    var h := |InstructionHeader|;
    var start := h + |ContentMarker|;
    var stop := start + contentLength;
    var tail := stop + |QuestionMarker|;
    CutInFive(p, h, start, stop, tail);
    var (trimmed, query) := ParsePrompt(p, contentLength).value;
    assert trimmed == p[start..stop] && query == p[tail..];
    assert p[..h] == InstructionHeader && p[h..start] == ContentMarker && p[stop..tail] == QuestionMarker;
  }

  // ---------------------------------------------------------------------------
  // The injector
  // ---------------------------------------------------------------------------

  /** The text sent to the language model for `query` and the optional retrieved `content`. */
  function BuildInput(query: string, content: Option<string>): (r: string)
    ensures |r| >= |query| && r[|r| - |query|..] == query
  {
    if HasContent(content) && !IsMetaQuestion(query) then
      ComposePrompt(TrimContent(content.value, MaxChars), query)
    else
      query
  }

  /** Without content, or for a meta-question, the query goes to the model unchanged. */
  lemma BuildInputPassesQuery(query: string, content: Option<string>)
    requires !HasContent(content) || IsMetaQuestion(query)
    ensures BuildInput(query, content) == query
  {
  }

  /**
   * With content and an ordinary question, the prompt embeds the first
   * min(|content|, 3000) characters of the content verbatim and ends with the query.
   */
  lemma BuildInputEmbedsPrefix(query: string, content: Option<string>)
    requires HasContent(content) && !IsMetaQuestion(query)
    ensures var n := Min(|content.value|, MaxChars);
      && 0 < n <= MaxChars && n <= |content.value|
      && ParsePrompt(BuildInput(query, content), n) == Some((content.value[..n], query))
  {
    var n := Min(|content.value|, MaxChars);
    var trimmed := TrimContent(content.value, MaxChars);
    assert trimmed == content.value[..n];
    ParseComposedPrompt(trimmed, query);
  }

  /** The query is sent unchanged exactly when there is no content or the query is a meta-question. */
  lemma BuildInputUnchangedIff(query: string, content: Option<string>)
    ensures BuildInput(query, content) == query <==> (!HasContent(content) || IsMetaQuestion(query))
  {
    if HasContent(content) && !IsMetaQuestion(query) {
      var r := BuildInput(query, content);
      assert |r| > |query|;
    }
  }

  /** Empty content behaves as absent content. */
  lemma EmptyContentIsNoContent(query: string)
    ensures BuildInput(query, Some("")) == BuildInput(query, None) == query
  {
  }

  /** A question about an earlier question bypasses the article text, whatever its case. */
  lemma MetaQuestionBypassesContent()
    ensures IsMetaQuestion("What did I ask earlier?")
    ensures BuildInput("What did I ask earlier?", Some("some article text")) == "What did I ask earlier?"
  {
    var query := "What did I ask earlier?";
    var lowered := Lower(query);
    var keyword := MetaQuestionKeywords[0];
    assert |keyword| == 14;
    forall i | 0 <= i < 14 ensures lowered[i] == keyword[i] {
      assert lowered[i] == LowerChar(query[i]);
    }
    assert OccursAt(lowered, keyword, 0);
    assert Contains(lowered, keyword);
  }
}
