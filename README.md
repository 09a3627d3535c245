# PubMed Explorer — a Dafny model of its search session and text helpers

PubMed Explorer is a Streamlit page that searches PubMed through NCBI Entrez.
It shows the MEDLINE records it fetches, exports them as CSV, and sends
abstracts to a Gemini model. It asks the model to summarise, simplify,
answer a question, recommend related reading, or find trends. This project
models the parts of that page whose behaviour the code states exactly:

- **`Session`** (main.py): the per-render step over the three session
  fields `query`, `records` and `total_found`.
  - Missing fields are created with defaults.
  - A new non-empty input resets the results.
  - On every render with a non-empty query, the page searches PubMed. It
    fetches the records when ids come back.

  The Entrez replies are inputs of the step. The pure functions `Submit`,
  `SearchStep` and `RenderStep` specify it. The class `SessionState`
  performs it in place, with `Option` fields for "not yet in the session".
- **`Records`** (main.py): projections of one MEDLINE record.
  - The displayed year, DOI and PubMed URL.
  - The list of abstracts handed to trend analysis, and the "Analyze
    Trends" action.
  - The export loop that builds one row per record before pandas takes
    over.
- **`LlmUtils`** (llm_utils.py): `gemini_service` over an opaque model
  function, and the five prompt builders.
- **`Text`**: the Python string operations the code relies on, written
  out. These are `str.split()`, `str.split(" ")`, `sep.join` and
  `str.strip()`, with Python's whitespace set.
- **`Wrappers`**: `Option`, and `Result` for a value or a raised exception.

A MEDLINE record is modelled as two maps. The MEDLINE parser stores text
tags (PMID, TI, JT, DP, AB, LID) as strings and repeatable tags (AU, MH) as
lists, and the code reads each tag in only one of those two forms.

## Behaviour worth knowing

The model follows the code in each case below.

- The search runs on every render while `query` is non-empty, not only
  when the query changes (main.py:166). The guard at main.py:160 only
  keeps `records` from being cleared (`Session.RerenderSearchesAgain`). A
  failed fetch is therefore retried on the next render with the same input
  (`Session.RetryAfterFetchFailure`).
- The count and the records are not set together: `total_found` is set
  before the fetch (main.py:177), so a fetch that raises leaves the new
  count beside the old records (`Session.FetchFailureKeepsNewCount`).
- A blank date stops the whole render. The display loop (main.py:195-205)
  runs over the loaded records before trend analysis and the export
  (main.py:264-299). A DP that is present but empty or all whitespace
  raises IndexError at main.py:200, so one such record ends the render
  there (`Records.DisplayYear`, `Records.DisplayOf`). The export's
  expression (main.py:294) would give `""` for an empty DP and raise for a
  DP of whitespace alone (`Records.ExportRowOf`,
  `Records.ExportYearVersusDisplay`). The page never gets that far with
  such a record, so it never exports the `""`.
- The DOI is not the first whitespace-delimited token of LID: the code
  splits at the first space character only (main.py:202, 297;
  `Records.BeforeFirstSpace`).
- Search and fetch failures are not caught (main.py:166-189), so they end
  the render. The model returns them as `raised`.

## Model

| member | source | states |
|---|---|---|
| Session.WithDefaults | main.py:146-151 | a session field that exists keeps its value; a missing `query`, `records` or `total_found` is `""`, `[]` or `0` |
| Session.SessionState.InitDefaults | main.py:146-151 | each missing session field is created as `""`, `[]` or `0`; a field that exists keeps its value |
| Session.FirstRender | main.py:146-151 | the first render of a new session, on a freshly allocated session object, starts from the empty query, no records and count 0 |
| Session.SessionState.SubmitQuery | main.py:160-163 | the fields after the query-change step are exactly `Submit` of the fields before |
| Session.Submit | main.py:160-163 | the new query is the input when non-empty, else the old query; results are kept exactly when the query is unchanged, otherwise records become `[]` and the count 0 |
| Session.SubmitIdempotent | main.py:160 | applying the query-change step twice with the same input equals applying it once |
| Session.SessionState.SearchAndFetch | main.py:166-188 | the fields, the requests sent and the exception raised are exactly those of `SearchStep` on the old fields |
| Session.SessionState.Render | main.py:146-188 | one render is defaults, then the query-change step, then the search/fetch update |
| Session.SearchStep | main.py:166-188 | the search/fetch update never changes the query and sends at most two requests, and no fetch after a search that raises; it raises exactly when the query is non-empty and the search raises, or ids came back and the fetch raises, and then with that call's error |
| Session.RenderStep | main.py:146-188 | after a render the query is the input when non-empty, else the old query; nothing is requested exactly when both the input and the old query are empty |
| Session.NoQueryNoSearch | main.py:166 | with an empty query nothing is requested and no field changes |
| Session.SearchAlwaysSent | main.py:166-173 | with a query, the first request is a PubMed search for that query, with `retmax` the article count (1..100) and `retstart` 0; the query is not changed |
| Session.TotalFoundFromCount | main.py:177 | after a search returns, the count is the reported Count, or 0 if absent, whatever ids came back and whatever the fetch did |
| Session.RecordsReplacedOnlyByFetch | main.py:178-188 | records become the fetched list exactly when the search returned ids and the fetch succeeded; otherwise they keep their value |
| Session.FetchCarriesTheIds | main.py:180-187 | a fetch is sent exactly when ids came back; it asks pubmed for MEDLINE text, and its comma-joined `id` splits back into those ids |
| Session.SearchFailureChangesNothing | main.py:166-177 | a search that raises leaves every field unchanged, sends nothing but the search itself, and surfaces its error |
| Session.FetchFailureKeepsNewCount | main.py:177-189 | a fetch that raises leaves the new count beside the previous records |
| Session.RerenderSearchesAgain | main.py:160-173 | rendering again with the same input does not reset the results but sends the search again |
| Session.RetryAfterFetchFailure | main.py:160-188 | after a failed fetch, the next render with the same input loads the fetched records and the new count |
| Records.FirstWord | main.py:200 | `split()[0]` raises IndexError exactly when the text is empty or all whitespace; otherwise it is the first maximal non-whitespace run, after the leading whitespace |
| Records.BeforeFirstSpace | main.py:202 | `split(" ")[0]` is the prefix of the text before its first space character, and holds no space |
| Records.DisplayYear | main.py:200 | displayed year is "Unknown" without DP and the first word of DP otherwise; it raises exactly when DP is present and blank |
| Records.DisplayYearExample | main.py:200 | a record dated "2021 Jun 15" shows year "2021" |
| Records.DisplayDoi | main.py:202 | displayed DOI is "N/A" when LID is missing or empty, else the LID up to its first space |
| Records.PubmedUrl | main.py:203 | the PubMed URL `https://pubmed.ncbi.nlm.nih.gov/<pmid>/` gives its PMID back |
| Records.UrlInjective | main.py:203 | two PMIDs with the same URL are equal |
| Records.DisplayOf | main.py:196-220 | an article renders unless DP is present and blank, and then raises with IndexError's message; its PMID, title, journal and abstract are the tag or "N/A", "No title", "Unknown journal", "No abstract available."; authors and MeSH terms are joined with ", ", or "N/A" when there are none; its link leads back to its PMID, and its year and DOI are the ones above |
| Records.TrendInput | main.py:278 | the abstracts handed to trend analysis are no more than the records |
| Records.TrendInputAppend | main.py:278 | the abstract filter keeps record order: the filter of a concatenation is the concatenation of the filters |
| Records.TrendInputContents | main.py:278 | every trend input is a non-empty abstract of some record, there are no more than there are records, and the list is empty exactly when no record has a non-empty abstract |
| Records.TrendInputComplete | main.py:278 | the abstract of every record that has one is among the trend inputs |
| Records.AnalyzeTrendsAction | main.py:275-285 | the informational message exactly when there are no abstracts; otherwise the model's analysis, or its error after "Trend analysis error: " |
| Records.NoAbstractsNoModelCall | main.py:279-283 | without abstracts every model yields the same informational outcome, so the model is not consulted |
| Records.ExportRowOf | main.py:290-299 | the export row raises IndexError exactly when DP is non-empty whitespace; otherwise PMID, title, journal and abstract are the tag or "", year is "" or the first word of DP, authors are joined with "; ", DOI is "" or the displayed DOI, URL matches PMID |
| Records.BuildExport | main.py:288-299 | one row per record in record order, or the IndexError of the first record whose row raises |
| Records.ExportYearVersusDisplay | main.py:294 | export and display agree on the year when DP is non-empty; for an empty DP the display raises while the export expression gives "" |
| Text.Words | main.py:200 | `split()`: the words, with at least one character between consecutive words, fit in the text |
| Text.WordsAreTokens | main.py:200 | every word of `split()` is non-empty and holds no whitespace |
| Text.WordsEmptyIff | main.py:200 | `split()` is empty exactly when the text is all whitespace |
| Text.FirstWordIsFirstRun | main.py:200 | the first word of `split()` is the first maximal non-whitespace run |
| Text.DateYearExample | main.py:200 | "2021 Jun 15" splits into "2021", "Jun", "15" |
| Text.Join | llm_utils.py:42 | `sep.join(parts)` starts with the first part |
| Text.JoinLength | llm_utils.py:42 | joining n >= 1 parts has the parts' total length plus n - 1 separators |
| Text.JoinAppend | llm_utils.py:42 | joining a concatenation puts one separator between the two joined halves |
| Text.SplitOn | main.py:297 | `split(c)` has at least one piece, and the first is the text before the first `c` |
| Text.SplitPiecesFree | main.py:297 | no piece of `split(c)` contains `c` |
| Text.JoinSplit | main.py:297 | joining the pieces of `split(c)` with `c` gives the text back |
| Text.SplitJoin | main.py:184 | splitting a join of separator-free parts gives the parts back |
| Text.Strip | llm_utils.py:15 | `strip()` is no longer than the text and has no whitespace at either end |
| Text.StripSlice | llm_utils.py:15 | `strip()` yields a slice of the text with only whitespace removed around it, and neither end of it is whitespace |
| Text.StripUnique | llm_utils.py:15 | a slice with no whitespace at either end and only whitespace around it is exactly `strip()` of the text, so `strip()` is determined by that description |
| Text.StripsToUnique | llm_utils.py:15 | any result that is the text with only surrounding whitespace cut and none left at either end is `strip()` of it |
| Text.StripIdempotent | llm_utils.py:15 | stripping twice equals stripping once |
| Text.StrippedIsFixed | llm_utils.py:15 | text without surrounding whitespace is unchanged by `strip()` |
| LlmUtils.GeminiService | llm_utils.py:11-17 | an error of the model call propagates; an unreadable text is re-raised after "Error processing Gemini response: "; otherwise the reply text stripped of surrounding whitespace |
| LlmUtils.RelaysDetermines | llm_utils.py:11-17 | that description of `gemini_service` leaves one outcome per reply |
| LlmUtils.SummarizePrompt | llm_utils.py:20-23 | the summary prompt is recognised as a summary prompt |
| LlmUtils.SummarizeText | llm_utils.py:19-24 | the outcome is `gemini_service`'s relay of the model's reply to the summary prompt of the text |
| LlmUtils.SimplifyPrompt | llm_utils.py:27-30 | the simplification prompt is recognised as a simplification prompt |
| LlmUtils.SimplifyText | llm_utils.py:26-31 | the outcome is the relay of the model's reply to the simplification prompt of the text |
| LlmUtils.AnswerPrompt | llm_utils.py:34-38 | the question prompt is recognised as a question prompt |
| LlmUtils.AnswerQuestion | llm_utils.py:33-39 | the outcome is the relay of the model's reply to the question prompt of the abstract and question |
| LlmUtils.TrendsPrompt | llm_utils.py:42-46 | the trend prompt is recognised as a trend prompt |
| LlmUtils.AnalyzeTrends | llm_utils.py:41-47 | the outcome is the relay of the model's reply to the trend prompt of the abstracts |
| LlmUtils.RecommendPrompt | llm_utils.py:50-53 | the recommendation prompt is recognised as a recommendation prompt |
| LlmUtils.RecommendArticles | llm_utils.py:49-54 | the outcome is the relay of the model's reply to the recommendation prompt of the abstract |
| LlmUtils.TaskOf | llm_utils.py:19-54 | a recognised prompt starts with the instruction of the builder it names, and a prompt starting with no instruction is not recognised |
| LlmUtils.InstructionsDiffer | llm_utils.py:19-54 | no prompt starts with two different builders' instructions |
| LlmUtils.InstructionsEndInBlankLine | llm_utils.py:19-54 | every instruction except the question-answering one ends in "\n\n" |
| LlmUtils.TaskOfInstruction | llm_utils.py:19-54 | a prompt that starts with a builder's instruction is recognised as that builder's |
| LlmUtils.PromptsRoundTrip | llm_utils.py:19-54 | summarize, simplify and recommend give their text back verbatim after the instruction, and trends give the space-joined abstracts back |
| LlmUtils.BuildersAskOnlyTheirPrompt | llm_utils.py:19-54 | each builder's result depends only on the model's reply to its own prompt |
| LlmUtils.AnswerPromptLayout | llm_utils.py:33-38 | the abstract follows the instruction and "Abstract: ", "\nQuestion: " and the question follow it, and the prompt ends with "\nAnswer:" |
| LlmUtils.AnswerPromptAmbiguous | llm_utils.py:33-38 | an abstract that contains "\nQuestion: " gives the same prompt as a different abstract and question |
| LlmUtils.TrendsPromptShape | llm_utils.py:41-47 | the trend prompt is the instruction plus the abstracts joined by single spaces; one abstract joins to itself, and n abstracts add n - 1 spaces |

## Left out

- Streamlit rendering is not modelled. This covers the CSS (main.py:10-118), header, columns, expanders, metric, spinner and download button. It has no behaviour beyond what it shows.
- The per-record Summarize, Simplify, Recommend and question buttons (main.py:229-262) are not modelled. They only wire a button to a builder of `LlmUtils` and show the result or "<action> error: …". The builders themselves are modelled.
- The Entrez `esearch`, `read` and `efetch` calls and `Medline.parse` are external network and parsing code. Their replies are inputs of the step, and their failures are an `Err` input.
- Session.SearchReply: the "Count" field is taken as a number. The `int()` conversion of Entrez's string, and the ValueError it would raise on a malformed count, are not modelled.
- Session.ESearch: `retmax` is kept as the number the page passes through `str(num_articles)`. The decimal formatting is not modelled.
- The number input bounds 1..100 (main.py:156) are the widget's guarantee. They appear as a precondition of the search step.
- The pandas `DataFrame` and `to_csv` encoding (main.py:300-301) are a foreign library. The model stops at the list of rows.
- db_utils.py (the MongoDB visit counter), the random active-user count (main.py:125), `st.secrets` and the API-key setup (llm_utils.py:7-9) are left out. They are external services and configuration.
- The Gemini model itself is a function parameter. Only its reply to a prompt is seen.
- The text of a Python exception (`{e}`) is an input string. The model only adds the prefixes the code adds.
