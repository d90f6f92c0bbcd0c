# Fact-check fallback of the AI email response server

The server answers an email with generated text and then fact-checks that text
with `fact_check(statement)`. This function tries two sources in turn:

1. It looks the statement up, verbatim, as the title of an English Wikipedia page.
2. If the page exists, it answers `"✅ Verified Fact (Wikipedia): "`, then the first
   200 characters of the page summary, then `"..."`.
3. If there is no page, it asks a web search for 3 results. Each result becomes a
   line `"🔎 Fact check this link: <result>"`, appended to a list in a loop. If the
   list is not empty, the lines are joined with line breaks and returned.
4. Otherwise it answers `"⚠️ No relevant information found online."`.

The project has three modules:

- `Text` (`text.dfy`) defines Python's `"\n".join(...)` and `str.split("\n")`.
  It proves that each undoes the other: `Split(Join(parts)) == parts` for a non-empty
  list of parts, none holding the separator, and `Join(Split(s)) == s` for every string.
- `Outcome` (`outcome.dfy`) gives the answer as a pure function of what the two
  providers said. `Decide` picks one of three outcomes (`Confirmed`, `Candidates`,
  `Unverified`). `Render` writes the outcome out as the exact answer text.
  The contract of `Answer` states that the three answer shapes cannot be confused:
  each begins differently, for every pair of provider answers. `Parse` reads a text
  back into its outcome. The lemmas state each branch's exact text, the excerpt
  bounds, and the number and order of lines.
- `FactChecker` (`fact_checker.dfy`) models the function as it runs. The class
  `Providers` stands for the two libraries. Its answers are two fixed functions,
  and two ghost logs record every call made to it. The method `FactCheck` follows
  the source step by step, including the append loop. It is proved to return
  `Answer` of the providers' replies. It is also proved to look up the statement
  exactly once and to search for it at most once, never when the page exists, in
  both cases with the statement unchanged.

Characters are Unicode scalar values in Dafny. Python's `str` counts code points the
same way, so `summary[:200]` cuts at the same place. A Python string may also hold a
lone surrogate, which a Dafny `char` cannot; that edge case is not modelled. The emoji
are written as escapes: U+2705, U+1F50E, and U+26A0 followed by U+FE0F (two scalar
values).

Three behaviours of the code worth noting:

- `"..."` is appended after every excerpt, also after a summary of 200 characters or
  fewer. It does not signal that anything was cut (`ShortSummaryQuotedWhole`).
- The count of 3 is only passed to the search provider, and the code does not cut the
  results itself. The answer has as many link lines as the provider returned results
  (`LineCountFollowsProvider`).
- Provider failures do not become an outcome of their own. The code has no exception
  handling, so a failing look-up or search raises out of `fact_check`.

## Model

| member | source | states |
|---|---|---|
| `Outcome.Excerpt` | fact_checker.py:36 | `summary[:200]` is a prefix of the summary, of length `min(200, len(summary))` |
| `Outcome.Decide` | fact_checker.py:35-48 | exactly one outcome: a page hit is `Confirmed` with the excerpt; a miss with results is `Candidates` with the results unchanged; a miss with no results is `Unverified`, each as an if-and-only-if |
| `Outcome.Render` | fact_checker.py:36-48 | the answer text of each outcome (the texts of lines 36, 45 and 48) begins with the verified prefix exactly for `Confirmed`, with the link prefix exactly for a non-empty `Candidates`, and equals the no-information message exactly for `Unverified`; its exact texts are stated by `PageHitAnswer`, `SearchHitAnswer` and `NothingFoundAnswer` |
| `Outcome.Answer` | fact_checker.py:25-48 | the reference answer `FactCheck` is proved equal to: for every page and every list of results, it begins with the verified prefix exactly on a page hit, with the link prefix exactly on a miss with results, and is the no-information message exactly on a miss without |
| `Outcome.LinkLines` | fact_checker.py:39-41 | one line per search result, the i-th being the link prefix followed by the i-th result, in provider order |
| `Outcome.PageHitAnswer` | fact_checker.py:35-36 | on a page hit the answer is exactly the verified prefix, the excerpt and `"..."`, and does not depend on what the search would return |
| `Outcome.ShortSummaryQuotedWhole` | fact_checker.py:36 | a summary of at most 200 characters appears whole, still followed by `"..."` |
| `Outcome.LongSummaryCut` | fact_checker.py:36 | a longer summary is cut to its first 200 characters; the answer then has fixed length |
| `Outcome.SearchHitAnswer` | fact_checker.py:39-45 | on a miss with k ≥ 1 single-line results, the answer splits into exactly the k link lines, in provider order, and does not end in a line break |
| `Outcome.NothingFoundAnswer` | fact_checker.py:44-48 | on a miss with no results the answer is exactly the no-information message |
| `Outcome.LineCountFollowsProvider` | fact_checker.py:40-48 | on a miss the answer has as many lines as the provider gave results (one line when none), so it has at most 3 lines if and only if the provider returned at most 3 |
| `Outcome.ParseRender` | fact_checker.py:35-48 | every outcome `fact_check` can produce whose search results contain no line break is recovered from its answer text |
| `Outcome.AnswerReadsBack` | fact_checker.py:35-48 | the answer text reports exactly the outcome that `Decide` chose, on every page hit and on every miss whose results contain no line break |
| `Outcome.TwoLinksScenario` | fact_checker.py:39-45 | no page and results `http://a`, `http://b` give two link lines in that order |
| `Text.Join` | fact_checker.py:45 | `"\n".join(lines)` begins with the first line; what else it holds is stated by `SplitJoin`, `JoinSplit` and `JoinEndsWithLast` |
| `Text.SplitJoin` | fact_checker.py:45 | splitting the newline-joined lines at line breaks gives back the lines, for a non-empty list of lines none of which holds a line break |
| `Text.JoinSplit` | fact_checker.py:45 | joining the pieces of any split string with the separator gives back the string |
| `Text.JoinEndsWithLast` | fact_checker.py:45 | the joined text ends with the last line: no separator is added after it |
| `FactChecker.Providers.FetchPage` | fact_checker.py:32 | the look-up returns the provider's page for the title and is logged as one look-up of that title |
| `FactChecker.Providers.Search` | fact_checker.py:40 | the search returns the provider's results for the query and count, and is logged as one search with those arguments |
| `FactChecker.FactCheck` | fact_checker.py:25-48 | the returned text equals `Answer` of the providers' replies for the statement. The statement is looked up once, verbatim. It is searched for once, verbatim and with a count of 3, only when the page does not exist |
| `FactChecker.CheckTwice` | fact_checker.py:25-48 | two checks of the same statement against the same providers both give `Answer` of the providers' replies; each call does its own look-up and, on a miss, its own search for 3 results |

## Left out

- server.py is not part of this model. It holds the HTTP endpoint, the rejection of an empty `email_content`, and the interactive terminal loop. These are I/O around the fact check.
- response_generator.py is not part of this model. It is a thin call into a generative-text service.
- train_ollama.py and preprocess.py are not part of this model. They are training and dataset scripts built on numerical and language-processing libraries.
- How the encyclopedia decides whether a page exists and what its summary is (redirects, normalisation of titles) is left out. So is how the search provider finds results and how many it really returns. Both are given as fixed functions, `Providers.wiki` and `Providers.engine`.
- The client configuration (user-agent string, `language="en"`) is left out. It changes nothing about the answer.
- Network and provider exceptions are left out. The code does not catch them, so they propagate out of `fact_check` unchanged. The model has no outcome for them.
- The search results arrive lazily from a generator in the source. The model receives them as a finished sequence. This makes no difference to the answer.
- Outcome.SearchHitAnswer and Outcome.LineCountFollowsProvider count lines only for results without a line break. A result with a line break adds lines of its own, and the source does nothing about it.
- Outcome.ParseRender and Outcome.AnswerReadsBack read an answer back only when its search results contain no line break. A result holding a line break followed by the link prefix gives the same text as two separate results, so such an answer cannot be read back. The three answer shapes stay distinct for every result, as the contract of `Outcome.Answer` states.
