# Answer preparation of a retrieval-augmented chat service, in Dafny

This project models the answer-preparation path of a small question-answering
service (`flask_app/utils.py`): a query arrives with a session id and,
optionally, text scraped from web search results; the service decides whether
to embed (a prefix of) that text in a prompt or to send the query as it is,
runs a history-aware chat chain for the session, and answers with the model's
reply or a fixed apology. Around it sit the helpers that assemble the
retrieved text: mapping a search response to `{title, link}` articles,
gathering the text of a scraped page, and joining the articles' texts.

Modules:

- `Wrappers` (wrappers.dfy): `Option`, standing for Python's `None` versus a value.
- `PyStr` (pystr.dfy): the Python string builtins the path uses — `str.lower()`,
  `pat in text` and `str.strip()` — each characterised by its contract.
- `ContextInjector` (context_injector.dfy): meta-question detection, the
  3000-character cut, the prompt layout and the decision between the plain
  query and the augmented prompt.
- `Sessions` (sessions.dfy): the process-wide `_session_histories` dictionary as
  a class holding a `map<string, ChatHistory>`, its get-or-create method, and
  Python's `dict.setdefault` as a value-level function.
- `AnswerGenerator` (answer_generator.dfy): `generate_flexible_answer`; the chat
  chain is an opaque function of the input and the session's prior messages
  that either replies or raises, and what it records in the session's history
  after a reply is another opaque function.
- `ContentAssembly` (content_assembly.dfy): `search_articles`,
  `fetch_article_content` and `concatenate_content` with their I/O turned into
  inputs (a search response, the page's tag texts, an opaque fetch function).

The code hands the possibly augmented input to the chat chain; which turns
the chain records in a session's history is library behaviour, modelled here
as an opaque function; the session dictionary has no locking.

## Model

| member | source | states |
|---|---|---|
| PyStr.Lower | flask_app/utils.py:158 | the lower-cased query has the same length and each character is the lower-case form of the one at the same place |
| PyStr.LowerIdempotent | flask_app/utils.py:158 | lower-casing an already lower-cased string changes nothing |
| PyStr.Contains | flask_app/utils.py:158 | `keyword in text` holds exactly when the keyword occurs at some index of the text |
| PyStr.IsSpace | flask_app/utils.py:130 | the characters `strip()` removes are exactly those for which Python's `str.isspace()` holds; no contract of its own, used by `PyStr.Strip` |
| PyStr.Strip | flask_app/utils.py:130 | `strip()` returns a slice of its input with only whitespace before and after it, empty exactly when the input is all whitespace, otherwise starting and ending with non-whitespace |
| PyStr.StripAppendedSpace | flask_app/utils.py:128-130 | stripping a string with non-space ends followed by whitespace gives back that string |
| ContextInjector.AnyKeywordIn | flask_app/utils.py:158 | `any(k in text for k in keywords)` holds exactly when some keyword of the list occurs in the text |
| ContextInjector.IsMetaQuestion | flask_app/utils.py:155-158 | a query is a meta-question exactly when one of the five fixed phrases occurs in the lower-cased query |
| ContextInjector.IsMetaQuestionIgnoresCase | flask_app/utils.py:158 | meta-question detection gives the same answer for a query and its lower-cased form |
| ContextInjector.HasContent | flask_app/utils.py:160 | the truthiness test `if content`: `None` and `""` both mean no content; no contract of its own, characterised by `ContextInjector.EmptyContentIsNoContent` |
| ContextInjector.TrimContent | flask_app/utils.py:161-162 | `content[:3000]` has length min(len(content), 3000) and is a prefix of the content |
| ContextInjector.ComposePrompt | flask_app/utils.py:164-172 | the augmented prompt starts with the fixed instruction header, has the length of its five parts together, and ends with the query; the full layout is pinned by `ContextInjector.ParseComposedPrompt` and `ContextInjector.ComposeParsedPrompt` |
| ContextInjector.ParseComposedPrompt | flask_app/utils.py:164-172 | a composed prompt is the fixed header, `---CONTENT---\n`, the trimmed content, `\n\n---QUESTION---\n` and the query, in that order, with the query ending it: reading it back yields the content and query it was built from |
| ContextInjector.ComposeParsedPrompt | flask_app/utils.py:164-172 | conversely, any text that reads back as header, markers, content and query is exactly the composition of those parts |
| ContextInjector.BuildInput | flask_app/utils.py:155-180 | the input sent to the model always ends with the query as asked; when it is the query unchanged and what it embeds otherwise is stated by the three lemmas below |
| ContextInjector.BuildInputPassesQuery | flask_app/utils.py:160-180 | with content absent or empty, or a meta-question, the input sent to the model is the query unchanged |
| ContextInjector.BuildInputEmbedsPrefix | flask_app/utils.py:160-172 | with non-empty content and an ordinary question, the prompt embeds the first min(len(content), 3000) characters of the content verbatim, followed by the query |
| ContextInjector.BuildInputUnchangedIff | flask_app/utils.py:160-180 | the input equals the query if and only if there is no content or the query is a meta-question |
| ContextInjector.EmptyContentIsNoContent | flask_app/utils.py:160 | an empty content string is treated like `None` |
| ContextInjector.MetaQuestionBypassesContent | flask_app/utils.py:155-160 | "What did I ask earlier?" is a meta-question and goes to the model unchanged even when article text is given |
| Sessions.SetDefault | flask_app/utils.py:47 | `setdefault` leaves the key present, returns its value, keeps every existing entry, and stores and returns the default only for a new key |
| Sessions.SetDefaultTwice | flask_app/utils.py:47 | a second `setdefault` on the same key returns the first call's value and changes nothing |
| Sessions.ChatHistory.constructor | flask_app/utils.py:47 | a new chat history holds no messages |
| Sessions.SessionStore.constructor | flask_app/utils.py:43 | the session dictionary starts empty |
| Sessions.SessionStore.GetOrCreate | flask_app/utils.py:43-47 | a known session id returns its existing history object; an unseen one gets a fresh empty history registered; no other entry is added, removed or changed, no history's messages change, and distinct session ids keep distinct history objects |
| AnswerGenerator.FlexibleAnswer | flask_app/utils.py:182-190 | if the chat chain raises, the answer is exactly "Sorry, I encountered an error while generating the response."; otherwise it is the reply's content |
| AnswerGenerator.AnswerWithoutContent | flask_app/utils.py:176-186 | without usable content the model is asked the bare query and the answer is its reply or the fallback |
| AnswerGenerator.MetaQuestionAnswerIgnoresContent | flask_app/utils.py:155-186 | for a meta-question the answer does not depend on the retrieved content |
| AnswerGenerator.AnswerWithContent | flask_app/utils.py:160-186 | with content and an ordinary question the model is asked a prompt holding the content's first min(len, 3000) characters and the query |
| AnswerGenerator.GenerateFlexibleAnswer | flask_app/utils.py:148-190 | one request gets or creates the session's history as `setdefault` does and invokes the chain on the built input with the prior messages; a raise returns the fallback and leaves the history as it was, a reply returns its content and the session's messages become what the chain records for that input and reply; no other session id's history changes, and distinct session ids keep distinct history objects |
| ContentAssembly.SearchArticles | flask_app/utils.py:82-113 | an exception, a status other than 200 or a missing `items` key yields no articles; otherwise one `{title, link}` per item in order, with "No Title" and "No Link" for missing keys |
| ContentAssembly.KeptText | flask_app/utils.py:124-128 | the `+=` accumulation is empty or ends with a newline, and is empty when every tag text is empty |
| ContentAssembly.KeptTextIsJoinedLines | flask_app/utils.py:124-128 | the accumulated text is the non-empty tag texts joined by newlines plus one final newline, or "" when there are none |
| ContentAssembly.PageTextIsJoinedLines | flask_app/utils.py:124-130 | when the tag texts come stripped, the page text is exactly the non-empty ones joined by newlines |
| ContentAssembly.FetchArticleContent | flask_app/utils.py:120-133 | the page text is the stripped accumulation of the non-empty tag texts, each followed by a newline; a failed fetch or parse gives "" |
| ContentAssembly.Segment | flask_app/utils.py:144 | the block one article contributes, `\n\n### {title}\n{text}`; no contract of its own, used by `ContentAssembly.Concatenation` |
| ContentAssembly.Concatenation | flask_app/utils.py:140-145 | the in-order segments of all articles; no contract of its own, characterised by `ContentAssembly.ConcatenationAppend`, `ContentAssembly.ConcatenationStartsWithFirst` and `ContentAssembly.ConcatenateContent` |
| ContentAssembly.ConcatenationAppend | flask_app/utils.py:140-145 | the joined text of two article lists is the joined text of the first followed by that of the second |
| ContentAssembly.ConcatenationStartsWithFirst | flask_app/utils.py:140-145 | a non-empty article list yields a non-empty text that starts with the first article's `\n\n### title\ntext` block |
| ContentAssembly.ConcatenateContent | flask_app/utils.py:136-145 | the result is the in-order concatenation of `\n\n### title\n` plus each article's fetched text, and it is "" exactly when there are no articles |

## Left out

- HTTP requests (flask_app/utils.py:84, 121) and HTML parsing with BeautifulSoup (lines 122, 125-126): a search is an input `SearchResponse`, a scraped page is the sequence of its tag texts, and the per-article fetch inside `concatenate_content` is an opaque function of the link (so the same link always gives the same text).
- The LangChain pipeline (lines 24-50): the system message, the history placeholder, the Together model and its temperature are one opaque `ChatModel`, and what `RunnableWithMessageHistory` records after a reply is one opaque `Recorder` of the prior messages, the input it was invoked with (at line 183 the possibly augmented prompt, not the original query) and the reply.
- AnswerGenerator.GenerateFlexibleAnswer: does not say which messages the chain records (that is the library's business), and takes it that the chain records nothing when it raises.
- AnswerGenerator.GenerateFlexibleAnswer: the Python defaults `session_id="default"` and `content=None` (line 148) are not modelled; callers pass both explicitly.
- PyStr.Lower: maps only ASCII `A`-`Z`; Python's full Unicode lower-casing (for example the Kelvin sign becoming `k`) is not modelled, so a few non-ASCII queries classified as meta by the code are not classified so here.
- AnswerGenerator.GenerateFlexibleAnswer: only the chat-chain call can raise in the model; the other steps (lower-casing, slicing, formatting a `str`) cannot raise on string inputs.
- ContentAssembly.SearchArticles: a JSON `null` title or link, a non-list `items` value and the `num_results` parameter (sent to the search API only) are not modelled; a missing key is `None`.
- Logging with `print`, environment and configuration loading (lines 16-20, 63-73).
- flask_app/app.py: the HTTP endpoint, its 400 on a missing query, and the unused `ConversationBufferMemory`; note that it computes the concatenated content but never passes it to `generate_flexible_answer` (flask_app/app.py:29-33), so in the deployed endpoint every request takes the plain-query path.
- streamlit_app/app.py: user interface only.
- Concurrency: the session dictionary has no locking in the code and sessions are never evicted; neither is invented here.
