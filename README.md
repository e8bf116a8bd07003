# Slack knowledge assistant: retrieval and guardrails in Dafny

This project models the retrieval-and-guardrail core of a Slack bot
(`slack-knowledge-assistant.py`). The bot answers a question in four steps:

1. It searches a Confluence wiki and keeps each result whose `content` passes a
   sensitive-content filter.
2. It asks a language model to turn the question into SQL. It runs that SQL only
   if it starts with `select`, and keeps each database row whose values all pass
   the filter.
3. It asks the model for an answer built from both lists, then appends a source
   attribution.
4. The handlers for a mention and for a direct message pull out the question and
   reply with either the answer or a fixed apology.

The modules follow the source's classes:

* `ContentFilter` (content_filter.dfy) models `ContentFilter.is_safe_content`:
  * the four blocked patterns, with `password[s]?` written as `password` (for an unanchored search the optional `s` changes nothing);
  * a small matcher for "literal, optional single non-newline character, literal" over lowercased text;
  * the looped method that returns on the first pattern found.
* `KnowledgeBase` (knowledge_base.dfy) models:
  * `search_confluence`;
  * `query_database`: prefix gate, `dict(zip(...))` row construction, row filter, and error handling.
* `Assistant` (assistant.dfy) models:
  * `generate_response` with its attribution suffix;
  * `handle_mention` and `handle_message`.
* `Text` holds the string operations, restricted to ASCII: `strip`, `lower`, `startswith`, `' and '.join` and `split('>', 1)[1]`.
* `Seqs` holds the order-preserving "loop and append" filter that both searches use, with its subsequence lemma.
* `Wrappers` holds `Option` and `Result`. `Result.Raised` stands for an exception that propagates.

The collaborators are inputs, bundled in `Assistant.World`. The wiki provider and the two oracles return None when their call raises; the database fails through `connects == false` (the connection raises) or `ExecFailed` (execution raises):

* the wiki provider, `(query, limit) -> results`;
* the SQL-writing oracle, `(question, allowed_tables) -> text`;
* the database: whether a connection opens, and for each statement either an execution error or `(columns, rows)`;
* the answering oracle, `(question, wiki excerpts, records) -> text`.

The configured `allowed_tables` is a field of `World`.

Behaviour of the code that a reader might not expect, each proved in the model:

* **Wiki filter.** `search_confluence` checks each result's `content` (default
  `''`, line 71) and never the `excerpt` it emits (line 74). See
  `KnowledgeBase.ExcerptIsNotChecked`.
* **Column names.** Only the values of a row's dictionary are checked (lines
  105-106). The row `{name: "Alice", ssn: "123-45-6789"}` is therefore returned:
  neither value holds a blocked pattern. See `KnowledgeBase.ColumnNamesNotChecked`.
* **Connection failures.** `get_db_connection()` (line 98) runs outside the `try`
  (line 100). A failure to connect propagates out of `query_database`, and the
  handler replies with the apology. Errors inside the `try` (lines 101-107) are
  caught. In the model they can only come from `execute`, `description` and
  `fetchall`, and they become `[]`.
* **Translation failures.** Only a completion that does not start with `select`
  gives `[]` (lines 94-95). An oracle call that raises (line 90) propagates and
  ends in the apology.
* **Repeated columns.** `dict(zip(...))` keeps the last value of a repeated
  column, so an earlier unsafe value under the same name is never checked. See
  `KnowledgeBase.RepeatedColumnHidesValue`.
* **No final pass.** The generated answer is not checked by the policy. See
  `Assistant.FinalAnswerNotFiltered`.

## Model

| member | source | states |
|---|---|---|
| `Text.IsSpace` | slack-knowledge-assistant.py:91 | The characters `strip()` removes: the ASCII characters for which `str.isspace()` holds. |
| `Text.AllSpace` | slack-knowledge-assistant.py:91 | Every character of the text is whitespace. |
| `Text.Alphabet` | slack-knowledge-assistant.py:94 | The lower-case ASCII letters `a` to `z`, in order. |
| `Text.LowerChar` | slack-knowledge-assistant.py:94 | The upper-case ASCII letter at position `k` of the alphabet becomes the lower-case letter at position `k` (`A` to `a` through `Z` to `z`). Every other character is unchanged. |
| `Text.Lower` | slack-knowledge-assistant.py:94 | `lower()` keeps the length and lowercases each ASCII letter, leaving every other character alone. |
| `Text.LowerConcat` | slack-knowledge-assistant.py:94 | Lowercasing distributes over concatenation. |
| `Text.LowerConcat3` | slack-knowledge-assistant.py:94 | Lowercasing distributes over a concatenation of three pieces. |
| `Text.LeadingSpaces` | slack-knowledge-assistant.py:91 | The count of leading whitespace: every character before it is whitespace and the character at it, if any, is not. |
| `Text.TrailingSpaces` | slack-knowledge-assistant.py:91 | The count of trailing whitespace: every character after the cut is whitespace and the one before it, if any, is not. |
| `Text.LeadingSpacesOfPadded` | slack-knowledge-assistant.py:91 | Stripping from the left stops exactly at the first non-space character. |
| `Text.TrailingSpacesOfPadded` | slack-knowledge-assistant.py:91 | Stripping from the right stops exactly at the last non-space character. |
| `Text.StripKeepsWord` | slack-knowledge-assistant.py:91-94 | A word with non-space ends, after leading whitespace, is the prefix of the stripped text. |
| `Text.Strip` | slack-knowledge-assistant.py:91 | The result is the slice of the input left after removing the leading and trailing ASCII whitespace. It is empty or starts and ends with a non-space character, and everything removed around it is whitespace. |
| `Text.StripPadded` | slack-knowledge-assistant.py:159 | Stripping `pre + x + post`, where `pre` and `post` are whitespace and `x` has non-space ends, gives exactly `x`. |
| `Text.StartsWith` | slack-knowledge-assistant.py:94 | `s.startswith(p)`: `p` is the first `len(p)` characters of `s`. Its use by the gate is characterised by `KnowledgeBase.AcceptsPadded` and `KnowledgeBase.AcceptedShape`. |
| `Text.Join` | slack-knowledge-assistant.py:147 | `sep.join(parts)`: the parts with `sep` between neighbours. The two- and one-label cases are used by `Assistant.AttributedReply`. |
| `Text.FirstIndex` | slack-knowledge-assistant.py:159 | When the separator occurs, the position found holds the separator and no earlier position does. |
| `Text.FirstIndexAfterMarker` | slack-knowledge-assistant.py:159 | In `marker + sep + rest`, where `marker` holds no separator, the first separator sits right after `marker`. |
| `Text.After` | slack-knowledge-assistant.py:159 | `split(sep, 1)[1]` is None exactly when `sep` does not occur. Otherwise it is the text after the first occurrence of `sep`. |
| `Text.AfterFirst` | slack-knowledge-assistant.py:159 | When `marker` holds no separator, splitting `marker + sep + rest` gives `rest` whole, later separators included. |
| `Seqs.FilterMap` | slack-knowledge-assistant.py:68-78 | The list built by looping and appending is never longer than the input. |
| `Seqs.Selected` | slack-knowledge-assistant.py:70-71 | The positions, in increasing order, whose element passes the test. |
| `Seqs.StrictlyIncreasing` | slack-knowledge-assistant.py:70 | The position list is in strictly increasing order, so input order is kept. |
| `Seqs.FilterMapIsSubsequence` | slack-knowledge-assistant.py:70-76 | The loop-and-append output is an order-preserving subsequence. Its k-th item is `f` of the input at the k-th selected position. Positions increase, and a position is selected exactly when its element passes the test. |
| `ContentFilter.BlockedPatterns` | slack-knowledge-assistant.py:46-51 | The four patterns in list order: `password[s]?` (as `password`), `credit.?card`, `ssn`, `social.?security`. |
| `ContentFilter.LiteralAt` | slack-knowledge-assistant.py:57 | A literal occurs at a given position. |
| `ContentFilter.MatchesAt` | slack-knowledge-assistant.py:47-50 | A pattern matches at a position: the head literal, then either the tail right away or one non-newline character and then the tail. |
| `ContentFilter.OccursIn` | slack-knowledge-assistant.py:57 | A pattern matches lowercase text at some position. |
| `ContentFilter.Occurs` | slack-knowledge-assistant.py:57 | `re.search` with `(?i)`: the pattern matches the lowercased text somewhere. |
| `ContentFilter.Safe` | slack-knowledge-assistant.py:54-59 | The policy's verdict: no blocked pattern occurs. `ContentFilter.IsSafeContent` is proved equal to it. |
| `ContentFilter.Search` | slack-knowledge-assistant.py:57 | `re.search` succeeds exactly when the pattern matches at some position of the text. |
| `ContentFilter.IsSafeContent` | slack-knowledge-assistant.py:54-59 | Tries the four patterns in list order and returns False on the first match. The result is False exactly when at least one blocked pattern occurs somewhere in the lowercased text. |
| `ContentFilter.LiteralInContext` | slack-knowledge-assistant.py:57 | A literal found in a text is still found, shifted, inside any surrounding text. |
| `ContentFilter.MatchInContext` | slack-knowledge-assistant.py:57 | A pattern match is still a match, shifted, inside any surrounding text. |
| `ContentFilter.OccursInLoweredContext` | slack-knowledge-assistant.py:57 | A pattern found in lowercase text is still found inside any surrounding text. |
| `ContentFilter.OccursInContext` | slack-knowledge-assistant.py:57 | A pattern found in a text is still found however much text surrounds it, because the search is not anchored. |
| `ContentFilter.UnsafeInContext` | slack-knowledge-assistant.py:56-58 | An unsafe text stays unsafe inside any larger text, because the search is not anchored. |
| `ContentFilter.UnsafeBeforeSuffix` | slack-knowledge-assistant.py:57 | An unsafe text stays unsafe when anything is appended to it. |
| `ContentFilter.UnsafeAt` | slack-knowledge-assistant.py:56-58 | A match of any blocked pattern at any position makes the text unsafe. |
| `ContentFilter.CaseInsensitive` | slack-knowledge-assistant.py:47-50 | Texts that differ only in the case of ASCII letters get the same verdict. |
| `ContentFilter.NoMatchWithoutFirstChar` | slack-knowledge-assistant.py:57 | A pattern cannot be found in a text whose lowercase form lacks the pattern's first character. |
| `ContentFilter.NoMatchInShortText` | slack-knowledge-assistant.py:57 | A pattern cannot be found in a text shorter than its first literal. |
| `ContentFilter.SafeWithoutInitials` | slack-knowledge-assistant.py:46-52 | A text with no `p`, `c` or `s` in either case is safe, since every pattern starts with one of them. |
| `ContentFilter.SafeShortText` | slack-knowledge-assistant.py:46-52 | A text shorter than three characters is safe. |
| `ContentFilter.SafeDigitsAndDashes` | slack-knowledge-assistant.py:46-52 | Any text made only of digits and dashes is safe. |
| `ContentFilter.SafeIdNumber` | slack-knowledge-assistant.py:49 | `123-45-6789` is safe: the `ssn` pattern matches the word, not a number. |
| `ContentFilter.CreditNewlineCard` | slack-knowledge-assistant.py:48 | `credit.?card` matches `credit\ncard` at no position. |
| `ContentFilter.LowerOfNewlineGap` | slack-knowledge-assistant.py:47-50 | `credit\ncard` is already lowercase and has no `p` or `s`. |
| `ContentFilter.NoCreditCardIn` | slack-knowledge-assistant.py:48 | No match at any position means `credit.?card` does not occur. |
| `ContentFilter.SafeUnlessCreditCard` | slack-knowledge-assistant.py:46-52 | A text without `p` and `s` in which `credit.?card` does not occur is safe. |
| `ContentFilter.SafeNewlineGap` | slack-knowledge-assistant.py:48 | `credit\ncard` is safe, because `.?` does not match a newline. |
| `ContentFilter.LowerOfCreditCard` | slack-knowledge-assistant.py:48 | `Credit-Card` lowercases to `credit-card`. |
| `ContentFilter.CreditDashCard` | slack-knowledge-assistant.py:48 | `credit.?card` matches `credit-card` at position 0. |
| `ContentFilter.UnsafeCreditCard` | slack-knowledge-assistant.py:48 | `Credit-Card` is unsafe: one gap character, any letter case. |
| `ContentFilter.LowerOfName` | slack-knowledge-assistant.py:46-52 | `Alice` lowercases to `alice`, which has no `p` or `s`. |
| `ContentFilter.SafeName` | slack-knowledge-assistant.py:46-52 | `Alice` is safe. |
| `KnowledgeBase.SearchLimit` | slack-knowledge-assistant.py:67 | The search asks for at most five results. |
| `Wrappers.GetOr` | slack-knowledge-assistant.py:71 | `result.get('content', '')`: the content when present, the default otherwise. |
| `KnowledgeBase.SafeResult` | slack-knowledge-assistant.py:71 | A result is kept when its `content`, defaulting to `''`, is safe. |
| `KnowledgeBase.KeptExcerpts` | slack-knowledge-assistant.py:68-78 | The excerpts of the results whose content is safe, in provider order. Its meaning is proved by `KnowledgeBase.KeptExcerptsAreSafeSubsequence`. |
| `KnowledgeBase.ToExcerpt` | slack-knowledge-assistant.py:72-76 | The emitted record carries the result's `title` and `excerpt` unchanged. `url` is `_links.webui` when present and None otherwise. |
| `KnowledgeBase.SearchConfluence` | slack-knowledge-assistant.py:65-78 | Asks the provider for `SearchLimit` (5) results. It returns exactly the safe-content excerpts of that list in order, and a raising provider is not caught. |
| `KnowledgeBase.KeptExcerptsAreSafeSubsequence` | slack-knowledge-assistant.py:70-76 | The output is an order-preserving subsequence of the provider's results. Each item is exactly {title, excerpt, url} of its result, and a result is kept if and only if its `content` (default `''`) is safe. |
| `KnowledgeBase.KeptExcerptsWithinLimit` | slack-knowledge-assistant.py:67 | A provider that honours `limit=5` yields at most five excerpts. |
| `KnowledgeBase.SingleSafeResultKept` | slack-knowledge-assistant.py:71-76 | A single result with safe content comes out as its excerpt record. |
| `KnowledgeBase.ExcerptIsNotChecked` | slack-knowledge-assistant.py:71-74 | A result without `content` is kept whatever its excerpt contains. |
| `KnowledgeBase.Min` | slack-knowledge-assistant.py:104 | The length `zip` stops at: the smaller of the two lengths. |
| `KnowledgeBase.Dict` | slack-knowledge-assistant.py:104 | `dict` of name/value pairs, inserted in order, so a later pair overwrites an earlier one. Its contents are proved by `KnowledgeBase.DictContents`. |
| `KnowledgeBase.RowRecord` | slack-knowledge-assistant.py:104 | `dict(zip(columns, row))`. Its contents are proved by `KnowledgeBase.RowRecordContents`. |
| `KnowledgeBase.RecordSafe` | slack-knowledge-assistant.py:105-106 | Every value of the dictionary is safe. |
| `KnowledgeBase.SafeRecords` | slack-knowledge-assistant.py:103-107 | The dictionaries of the rows whose values are all safe, in executor order. Its meaning is proved by `KnowledgeBase.SafeRecordsExactly`. |
| `KnowledgeBase.Keyword` | slack-knowledge-assistant.py:94 | The one keyword a statement may start with: `select`. |
| `KnowledgeBase.Accepts` | slack-knowledge-assistant.py:91-94 | The gate: the stripped completion, lowercased, starts with `select`. `KnowledgeBase.AcceptsPadded` and `KnowledgeBase.AcceptedShape` prove it holds exactly for whitespace, then six characters that lowercase to `select`, then anything. |
| `KnowledgeBase.DatabaseAnswer` | slack-knowledge-assistant.py:94-111 | What `query_database` returns for a completion: `[]` when the gate rejects, an exception when the connection fails, `[]` when execution fails, and the safe rows otherwise. `KnowledgeBase.QueryDatabase` is proved equal to it. |
| `KnowledgeBase.DictContents` | slack-knowledge-assistant.py:104 | `dict` of name/value pairs: every name is a key and nothing else is, and a repeated name keeps the value of its last occurrence. |
| `KnowledgeBase.RowRecordContents` | slack-knowledge-assistant.py:104 | `dict(zip(columns, row))` keeps only the first `min(len(columns), len(row))` pairs. A repeated column keeps its later value. |
| `KnowledgeBase.SafeRecordsStep` | slack-knowledge-assistant.py:103-107 | Scanning one more row extends the kept list by that row's dictionary exactly when all its values are safe, and leaves it as it was otherwise. |
| `KnowledgeBase.AllValuesSafe` | slack-knowledge-assistant.py:105-106 | True exactly when every value of the row's dictionary is safe. |
| `KnowledgeBase.QueryDatabase` | slack-knowledge-assistant.py:80-111 | The statement reaches the executor only when the stripped completion, lowercased, starts with `select`, and it is sent stripped but not lowercased. A rejected statement gives `[]` with no execution. An execution error gives `[]`. A raising translation or connection propagates. Otherwise the result is the safe rows. |
| `KnowledgeBase.SafeRecordsExactly` | slack-knowledge-assistant.py:103-107 | The result is exactly the executor rows whose every value is safe, in executor order, each as its unchanged dictionary. A row with one unsafe value is dropped whole, and column names play no part. |
| `KnowledgeBase.DatabaseAnswerIsSafe` | slack-knowledge-assistant.py:103-111 | No record returned holds an unsafe value. |
| `KnowledgeBase.RejectedIgnoresDatabase` | slack-knowledge-assistant.py:94-95 | For a rejected statement the answer is `[]` whatever the database would do. |
| `KnowledgeBase.AcceptsPadded` | slack-knowledge-assistant.py:91-94 | The gate accepts any text made of whitespace, then `select` in any case, then anything. |
| `KnowledgeBase.AcceptedShape` | slack-knowledge-assistant.py:91-94 | Every accepted text has that shape: leading whitespace, then six characters that lowercase to `select`. |
| `KnowledgeBase.RejectsOtherFirst` | slack-knowledge-assistant.py:94 | A text whose first character is neither whitespace nor `s`/`S` is rejected. |
| `KnowledgeBase.RejectsDrop` | slack-knowledge-assistant.py:94-95 | `DROP TABLE users;` is rejected, and the database answer for it is `[]`. |
| `KnowledgeBase.LowerOfUpperKeyword` | slack-knowledge-assistant.py:94 | `SELECT` lowercases to `select`. |
| `KnowledgeBase.AcceptsUpperCase` | slack-knowledge-assistant.py:91-94 | `  SELECT name FROM staff` (given in three pieces) is accepted. |
| `KnowledgeBase.AcceptsChained` | slack-knowledge-assistant.py:94 | `selectx; DROP TABLE users` (given as `select` and the rest) is accepted, because the gate checks only a prefix. |
| `KnowledgeBase.SingleSafeRowKept` | slack-knowledge-assistant.py:104-107 | A single row whose values are all safe is returned as its dictionary. |
| `KnowledgeBase.NameAndIdRecord` | slack-knowledge-assistant.py:104 | The columns `[name, ssn]` with the values `["Alice", "123-45-6789"]` give the dictionary with both pairs. |
| `KnowledgeBase.ColumnNamesNotChecked` | slack-knowledge-assistant.py:104-107 | The row `{name: "Alice", ssn: "123-45-6789"}` is returned unchanged. |
| `KnowledgeBase.RepeatedColumnRecord` | slack-knowledge-assistant.py:104 | The columns `[note, note]` with the values `["password", "ok"]` give the dictionary `{note: "ok"}`. |
| `KnowledgeBase.RepeatedColumnHidesValue` | slack-knowledge-assistant.py:104-106 | With columns `[note, note]` and values `["password", "ok"]`, the row is kept as `{note: "ok"}`: the overwritten unsafe value is never checked. |
| `Assistant.WikiLabel` | slack-knowledge-assistant.py:142 | The wiki's label: `Confluence`. |
| `Assistant.DatabaseLabel` | slack-knowledge-assistant.py:144 | The database's label: `internal database`. |
| `Assistant.SourcesHeader` | slack-knowledge-assistant.py:147 | The text before the labels: two newlines and `Sources: `. |
| `Assistant.Attribution` | slack-knowledge-assistant.py:140-147 | The suffix for the four cases: both labels joined by ` and `, one label, or nothing when both lists are empty. `Assistant.AttributedReply` is proved to build exactly this. |
| `Assistant.Response` | slack-knowledge-assistant.py:117-149 | What `generate_response` returns: the stripped answer plus the attribution, or an exception from an uncaught collaborator. `Assistant.GenerateResponse` is proved equal to it. |
| `Assistant.AttributedReply` | slack-knowledge-assistant.py:137-149 | Stripping the oracle text and appending `"\n\nSources: "` plus the `' and '`-joined labels gives the stripped text followed by exactly one of three suffixes, or by nothing when both lists are empty. The suffix is "Confluence and internal database" when both lists are non-empty, "Confluence" for wiki only, and "internal database" for database only. |
| `Assistant.GenerateResponse` | slack-knowledge-assistant.py:117-149 | The reply is the oracle's stripped text plus the attribution for the filtered lists. It raises when the wiki provider, the translation, the connection or the answering oracle raises. |
| `Assistant.Apology` | slack-knowledge-assistant.py:167 | The fixed text said on any failure. |
| `Assistant.Say` | slack-knowledge-assistant.py:162-167 | What a handler says: the response, or the apology when answering raised. |
| `Assistant.MentionQuestion` | slack-knowledge-assistant.py:159 | The question is None exactly when the text has no `>`. Otherwise it is the text after the first `>`, stripped. |
| `Assistant.HandleMention` | slack-knowledge-assistant.py:154-168 | Says the apology when `text` is missing, has no `>`, or answering raises. Otherwise it says the generated response. |
| `Assistant.HandleMessage` | slack-knowledge-assistant.py:170-179 | Says something exactly when `channel_type == 'im'`. What it says is the response to the whole text, or the apology on failure. |
| `Assistant.MentionAfterMarker` | slack-knowledge-assistant.py:159 | For `marker + ">" + pre + q + post`, where `marker` holds no `>` and the padding is whitespace, the question is exactly `q`. |
| `Assistant.WikiOnlyReply` | slack-knowledge-assistant.py:120-149 | One clean wiki result and no rows give the stripped answer plus `"\n\nSources: Confluence"`. |
| `Assistant.FinalAnswerNotFiltered` | slack-knowledge-assistant.py:136-149 | The answer is not re-checked: an unsafe stripped answer yields an unsafe reply. |

## Left out

- The Slack `App`, `SocketModeHandler`, the event decorators and `say` are network and UI plumbing. The handlers are modelled as methods that return what they would say. `HandleMessage` returns None when it says nothing.
- Configuration loading (YAML, environment variables) is I/O. The table list is a field of `World`.
- The Llama model is an uninterpreted oracle. Indexing `choices[0]['text']` is not modelled, and an oracle call that raises is None.
- The prompt text (f-strings over Python reprs of lists and dicts) only feeds the oracles. The translation oracle takes the question and the table list, and the answering oracle takes the question and the two filtered lists.
- The Confluence client is a foreign network call. Its result list is the output of `World.searchWiki`.
- The psycopg2 connection and cursor context managers are I/O. Resource release is not modelled. The connection is one flag, and execution returns either an error (`execute`, `description` or `fetchall`) or `(columns, rows)`.
- `print` logging is a side effect only.
- Character handling is ASCII only. Python's `lower()`, its `(?i)` matching (which also folds characters such as the Kelvin sign and the long s) and its `strip()` are Unicode-aware. The model lowercases `A`-`Z` and strips the ASCII characters for which `str.isspace()` holds: space, `\t` `\n` `\x0b` `\x0c` `\r` and `\x1c`-`\x1f`.
- An exception raised inside the row loop (lines 103-107), for example by `str(value)`, is caught by the `try` and returns the rows kept so far. Values are text in the model, so this path cannot occur and is not modelled.
- Database values are modelled by their `str()` text, so Python's `str()` of other types is not modelled. A record is a map, so the key order of a Python dict, which only shows in the prompt, is not kept.
- `KnowledgeBase.AllValuesSafe`: Python's `all()` visits the values in insertion order and stops at the first unsafe one. `KnowledgeBase.AllValuesSafe` visits the keys in an unspecified order. Both return the same verdict.
- Malformed provider records are not modelled: a `content` that is present but not a string, or an `_links` that is not a dictionary, makes the source raise. The model has a `content` that is either absent or a string, and `_links` as a string map.
- Hardening the source does not have is not modelled: a real SQL parser, a cross-check of the statement against the allowed tables, and a policy pass on the final answer.
