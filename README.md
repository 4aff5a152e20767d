# Misinformation dashboard: verified model of its agents and dashboard state

This project models the deterministic core of a misinformation-tracking system
in Dafny and proves properties of it. The system has three parts:

- a claim extractor that cuts fetched articles into sentences and keeps the
  assertive ones as unverified claims;
- a verifier agent that searches the web, news and Reddit for evidence,
  deduplicates it, drops satire sources and asks a language model for a verdict;
- a dashboard that polls the stored claims, verifications and source items and
  colours them by verdict.

Modules:

- `Wrappers`: the `Option` type.
- `Seqs`: order-preserving list operations (`Take`, `Map`, `Filter`, `Concat`,
  subsequences), with the lemmas the other modules share.
- `Text`: the Python string operations the backend uses. These are `strip()`
  with Python's whitespace set, `split()` with and without a separator, `sub in s`,
  `lower()`, and the truthiness of optional strings.
- `Records`: the evidence record and link-distinctness.
- `Verifier`: `backend/app/agents/verifier.py`.
- `ClaimExtractor`: `backend/app/agents/claim_extractor.py`.
- `Dashboard` and `Colors`: `frontend/src/App.jsx`.

Every network call is an input to the model:

- a search engine is a function from a query to its results;
- a language-model reply is the reply's content, or none when the call fails
  (no API key is a separate flag);
- `json.loads` is a function from text to the fields it found, or none when it raises;
- one dashboard refresh is the outcome of its three reads.

Loops that the source runs over lists are Dafny methods with loop invariants.
Each is proved against a recursive specification function, and the properties
the system promises are proved about those functions. The dashboard's state
cells are the fields of the class `Dashboard.Board`.

Notes on behaviour the proofs brought out:

- Fence stripping takes the text between the first `` ```json `` and the next
  `` ``` ``. That reading holds unless that closing `` ``` `` begins a run of four
  backticks (`Verifier.StripJsonFence`). When a run of four or five backticks
  comes before `json`, the second `` ```json `` found by `split` overlaps the
  closing fence, and one or two stray backticks are kept
  (`Verifier.StrayBackticks`).
- Whenever `score_with_llm` returns a verdict, it returns exactly one reason.
  So the `"Verified by AI."` summary of `verify_claim_text` appears only when the
  model's summary is that text (`Verifier.ModelSummaryIsReported`).
- An empty verdict string is falsy and takes the fallback branch, so a result's
  verdict is never empty.
- The keyword test is a substring test: "because" counts as containing "cause"
  (`ClaimExtractor.BecauseHasKeyword`).
- Tags other than `false`, `true` and `mixture` (for example `unverified`) get a
  gray dot and gray badge but yellow verdict text (`Colors.VerdictTextMatchesDot`).
- `loading` is cleared by every refresh and never set back to true
  (`Dashboard.LoadingOnlyBeforeFirstFetch`).

## Model

| member | source | states |
|---|---|---|
| Verifier.FilterEvidence | backend/app/agents/verifier.py:208-220 | The result is the input with fiction-sourced items removed, in order. It is a subsequence, never longer than the input, and an item is kept exactly when neither its source nor its link names a fiction outlet. Filtering the result again returns it unchanged. |
| Verifier.UnlabelledEvidenceIsKept | backend/app/agents/verifier.py:215-217 | A missing source and link read as "" and never match a fiction name, so such an item is kept. |
| Verifier.FilterKeepsDistinctLinks | backend/app/agents/verifier.py:241-253 | Filtering deduplicated evidence keeps the links pairwise distinct. |
| Verifier.DedupByLink | backend/app/agents/verifier.py:241-247 | The loop with a seen-links set keeps exactly one item per link. It keeps every input link, the links are pairwise distinct, input order is preserved, and each kept item is the first input item with its link. The result is never longer than the input and holds only input items. |
| Verifier.DedupKeepsEveryLink | backend/app/agents/verifier.py:241-247 | The deduplicated list has exactly the set of links of the input. |
| Verifier.DedupLinksDistinct | backend/app/agents/verifier.py:241-247 | No two deduplicated items share a link. |
| Verifier.DedupIsSubsequence | backend/app/agents/verifier.py:241-247 | Deduplication only deletes items, keeping order. |
| Verifier.DedupKeepsFirstOccurrence | backend/app/agents/verifier.py:244-247 | Each kept item is the first input item that carries its link. |
| Verifier.FirstWithLinkFound | backend/app/agents/verifier.py:245 | A link has a first carrier exactly when it is among the input's links. |
| Verifier.GatherEvidence | backend/app/agents/verifier.py:228-239 | Only the first three queries are searched. The evidence is each query's web, then NewsAPI, then Reddit results, query by query. |
| Verifier.EvidenceForMembers | backend/app/agents/verifier.py:231-239 | An item is gathered exactly when some searched query's engines returned it. |
| Verifier.StripFences | backend/app/agents/verifier.py:58-61 | The fence handling as written, with Python's `split` and `strip`. Whenever the reply holds a fence, the text passed to the parser has no whitespace at either end. |
| Verifier.StripUnfenced | backend/app/agents/verifier.py:58-61 | A reply with no fence is passed to the parser unchanged. |
| Verifier.StripBareFence | backend/app/agents/verifier.py:60-61 | With only plain fences, the parsed text is the trimmed text between the first two fences. |
| Verifier.StripJsonFence | backend/app/agents/verifier.py:197-198 | With a `json` fence, the parsed text is the trimmed text after it up to the next fence, provided that fence does not begin a run of four backticks. |
| Verifier.StrayBackticks | backend/app/agents/verifier.py:58-59 | A reply made of a `json` fence, a newline, one character that is neither whitespace nor a backtick, then four or five backticks and `json`, is parsed as that character followed by one or two backticks: the second `json` fence found by `split` overlaps the closing fence. |
| Verifier.UpToJsonThenFence | backend/app/agents/verifier.py:58-59 | Cutting at the next `json` fence and then at the next fence equals cutting at the next fence, unless that fence begins a run of four backticks. |
| Verifier.Decompose | backend/app/agents/verifier.py:18-67 | With no API key or a failed call, the queries are the claim itself. Otherwise the fence-stripped reply is parsed: its `queries` list is returned when it has one, and the claim itself when it has none or does not parse. |
| Verifier.DecomposeReadsUnfencedReply | backend/app/agents/verifier.py:56-64 | A reply without fences is parsed as it stands, and its `queries` list is what gets searched. |
| Verifier.DecomposeReadsJsonFence | backend/app/agents/verifier.py:56-64 | A reply with a `json` fence is parsed from the trimmed text inside the fence, and its `queries` list is what gets searched, unless the closing fence begins a run of four backticks. |
| Verifier.ScoreWithLlm | backend/app/agents/verifier.py:139-206 | No verdict, score 0.0 and no reasons exactly when there is no key, the call fails or the reply does not parse. Otherwise it returns the lower-cased verdict ("unverified" by default), the confidence (0.5 by default) and the summary ("" by default) as the only reason. |
| Verifier.LowerUnverified | backend/app/agents/verifier.py:203 | The default verdict "UNVERIFIED" lower-cases to "unverified". |
| Verifier.AssembleResult | backend/app/agents/verifier.py:255-272 | A truthy model verdict gives the model's verdict, score, reasons and summary. Otherwise the fixed fallback is returned. The evidence is always the list handed in, and the verdict is never empty. |
| Verifier.ModelSummaryIsReported | backend/app/agents/verifier.py:251-261 | A model-backed result's summary is the model's own summary. |
| Verifier.VerifyClaimText | backend/app/agents/verifier.py:222-272 | The pipeline is: decompose, search the first three queries, deduplicate, score the deduplicated evidence, then return the filtered evidence with the verdict. The returned evidence has distinct links and no fiction sources. |
| ClaimExtractor.ExtractFromText | backend/app/agents/claim_extractor.py:15-25 | The candidates are the stripped, non-empty, '.'-separated sentences with 5 to 40 words and a keyword, in order. Each is a trimmed, dot-free sentence, and there are none exactly when no sentence qualifies. |
| ClaimExtractor.KeepCandidates | backend/app/agents/claim_extractor.py:18-25 | The loop keeps exactly the qualifying sentences, in order. |
| ClaimExtractor.Sentences | backend/app/agents/claim_extractor.py:17 | There are no more sentences than '.'-separated pieces. Every sentence is non-empty, holds no '.', and has no whitespace at either end. |
| ClaimExtractor.StrippedPiecesAreSentences | backend/app/agents/claim_extractor.py:17 | Stripping dot-free pieces and dropping empty ones yields only sentences. |
| ClaimExtractor.HasKeyword | backend/app/agents/claim_extractor.py:19-23 | The keyword test holds only for texts of at least three characters, since every keyword is that long. |
| ClaimExtractor.KeywordTestIgnoresCase | backend/app/agents/claim_extractor.py:23 | Lower-casing the text before the test changes nothing. |
| ClaimExtractor.Qualifies | backend/app/agents/claim_extractor.py:20-24 | A candidate has a keyword and, having at least five whitespace-separated words, at least nine characters. |
| ClaimExtractor.BecauseHasKeyword | backend/app/agents/claim_extractor.py:23 | The keyword test matches inside words: "because" contains "cause". |
| ClaimExtractor.ClaimText | backend/app/agents/claim_extractor.py:31-33 | The claim text, when there is one, is truthy and is the full text, the summary or the title. There is none exactly when all three are falsy. |
| ClaimExtractor.ClaimTextFallback | backend/app/agents/claim_extractor.py:31-33 | The claim text is the full text, else the summary, else the title. When all three are empty or missing, the item is skipped. |
| ClaimExtractor.DocsForShape | backend/app/agents/claim_extractor.py:35-44 | One document per candidate, in order, each with the item's id, the candidate text and status "unverified". |
| ClaimExtractor.CreatedClaimsShape | backend/app/agents/claim_extractor.py:27-45 | Every created claim is unverified, carries the id of an item with claim text, and its text is a candidate sentence of that text. |
| ClaimExtractor.ItemWithoutTextIsSkipped | backend/app/agents/claim_extractor.py:32-33 | An item without claim text creates no claims. |
| ClaimExtractor.RunExtractor | backend/app/agents/claim_extractor.py:27-45 | The created documents are the claims of each item, item by item. Each is unverified and tied to one of the items. |
| ClaimExtractor.InsertClaims | backend/app/agents/claim_extractor.py:35-44 | The inner loop builds one unverified document per candidate, in order. |
| Text.FirstTruthy | backend/app/agents/claim_extractor.py:31 | `a or b or c` picks the first present, non-empty value, and none when there is none. |
| Text.Trim | backend/app/agents/claim_extractor.py:17 | `strip()` leaves no whitespace at either end, keeps only characters of the input, and is empty exactly when the input is all whitespace. |
| Text.TrimIsSlice | backend/app/agents/claim_extractor.py:17 | The result of `strip()` is the slice of the input between a whitespace-only prefix and a whitespace-only suffix. |
| Text.Words | backend/app/agents/claim_extractor.py:21 | `split()` yields non-empty words that hold no whitespace. |
| Text.WordsFit | backend/app/agents/claim_extractor.py:21 | A text of n characters has at most (n + 1) / 2 words, and at most n / 2 when it starts with whitespace. |
| Text.WordsKeepNonSpace | backend/app/agents/claim_extractor.py:21 | The words of `split()`, joined end to end, are exactly the non-whitespace characters of the text, in order. |
| Text.WordsCount | backend/app/agents/claim_extractor.py:21 | `split()` yields one word per word start: a non-whitespace character at the front of the text or right after whitespace. |
| Text.IndexOf | backend/app/agents/claim_extractor.py:23 | `sub in s` finds the first position where `sub` occurs, and none exactly when it occurs nowhere. |
| Text.Split | backend/app/agents/claim_extractor.py:17 | `split(sep)` yields at least two pieces exactly when the separator occurs. The first piece is the text before the first separator, or the whole text. |
| Text.SplitPiecesAreSeparatorFree | backend/app/agents/claim_extractor.py:17 | No piece of `split(sep)` contains the separator. |
| Text.JoinSplit | backend/app/agents/claim_extractor.py:17 | Joining the pieces with the separator gives back the original text. |
| Text.SplitSecond | backend/app/agents/verifier.py:58-61 | The second piece is the text after the first separator up to the next one. |
| Text.Lower | backend/app/agents/verifier.py:215-216 | Lower-casing keeps the length and maps each character on its own. |
| Seqs.FilterIdempotent | backend/app/agents/verifier.py:208-220 | Filtering twice by the same test equals filtering once. |
| Seqs.FilterIsSubsequence | backend/app/agents/verifier.py:213-219 | Filtering only deletes elements, keeping order. |
| Dashboard.AfterFetch | frontend/src/App.jsx:16-27 | If all three reads succeed, all three lists are replaced together. If any read fails, none changes. `loading` is false afterwards either way. |
| Dashboard.Board.constructor | frontend/src/App.jsx:5-8 | The component starts with empty lists and `loading` true. |
| Dashboard.Board.FetchAll | frontend/src/App.jsx:16-27 | The refresh moves the state cells exactly as `AfterFetch` says. |
| Dashboard.LoadingOnlyBeforeFirstFetch | frontend/src/App.jsx:8 | `loading` is true exactly before the first refresh and never comes back. |
| Dashboard.ReplayShowsLastSuccess | frontend/src/App.jsx:18-25 | After any run of refreshes, the lists are those of the last successful refresh, or the initial empty lists. |
| Dashboard.LastSuccess | frontend/src/App.jsx:18-25 | Finds the last refresh whose three reads all succeeded, if any. |
| Colors.StatusColor | frontend/src/App.jsx:29-36 | `getStatusColor` returns shade 100 background and shade 800 text of one hue: red for "false", green for "true", yellow for "mixture", gray otherwise. |
| Colors.VerdictColor | frontend/src/App.jsx:38-45 | `getVerdictColor` returns shade 500 background of the same four-way hue. |
| Colors.ColorsAgree | frontend/src/App.jsx:29-45 | Two tags get the same badge exactly when they get the same dot, exactly when they fall in the same case of the switch. |
| Colors.VerdictTextColor | frontend/src/App.jsx:135 | Verdict text is red for "false", green for "true", yellow for every other tag. |
| Colors.VerdictTextMatchesDot | frontend/src/App.jsx:128-135 | The text takes the dot's hue, except that tags outside the three known ones have a gray dot and yellow text. |
| Dashboard.ShownEvidence | frontend/src/App.jsx:142-146 | No evidence is shown when it is missing. Otherwise the first min(3, n) items are shown, in order. |
| Dashboard.Label | frontend/src/App.jsx:154 | The label is the first truthy of title, snippet and link, else the link as it is. |
| Dashboard.LabelBlankOnlyWithoutText | frontend/src/App.jsx:154 | A label is blank only when title, snippet and link all are. |
| Dashboard.EvidenceLabels | frontend/src/App.jsx:146-154 | One label per shown item, so at most three and none when evidence is missing. The k-th label is the label of the k-th evidence item. |
| Dashboard.IdSuffix | frontend/src/App.jsx:105 | The displayed id is the last six characters, or the whole id when it is shorter. |
| Dashboard.IdSuffixIdempotent | frontend/src/App.jsx:105 | Shortening a displayed id again changes nothing. |

## Left out

- Network I/O is modelled as inputs: the OpenAI calls, the Google, NewsAPI and Reddit searches, the article fetcher and the dashboard's HTTP client.
- Search engines are modelled as deterministic functions of the query, so a repeated query returns the same results.
- `json.loads` is an input. Only the fence stripping before it and the key defaults after it are modelled.
- Keys holding unexpected JSON types are not modelled. Examples are a non-list `queries` value and a `null` verdict, which makes `.lower()` raise and takes the exception path.
- MongoDB reads and writes are left out: the `limit` and sort of the item query, `insert_one` and the `_id` it returns, `run_verifier`'s claim update, `now_iso()` timestamps. `RunExtractor` takes the items already read, in order.
- `ClaimExtractor.FullText` does not model `meta` stored as `null`, on which `.get` raises. A missing `meta` is modelled.
- `Verifier.DedupByLink` does not model an evidence item without a `link` key, on which `e['link']` raises. Every search function writes the key, possibly as `None`.
- `Text.Lower` lower-cases ASCII letters only, because Python's full Unicode case mapping is not modelled. The fiction names and the keywords are ASCII, so only non-ASCII letters in sources, links and sentences could behave differently.
- `run_verifier`, the APScheduler jobs, `asyncio.gather` and the 15-second `setInterval` are scheduling and persistence. Refreshes are modelled as a sequence of completed ticks, so overlapping in-flight refreshes are not modelled.
- The prompt strings and the evidence text built for the scorer prompt are left out. The scorer reply is a function of the claim and the deduplicated evidence.
- Rendering is left out: React markup, `toUpperCase()` of tags, `toLocaleString()` of dates, and `(score * 100).toFixed(0)`. Scores are opaque reals.
