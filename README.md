# money-bot in Dafny

money-bot is a scheduled script that runs once per invocation:

1. It asks Product Hunt's GraphQL API for the top post by votes.
2. It sends that product's fields in a prompt to a Gemini text model, which writes a Japanese blog article.
3. It cleans the model's reply and writes it to `content/posts/<YYYY-MM-DD>-<SanitisedName>.md`.

This project models the logic of that script as pure Dafny functions, with lemmas about them:

- the name sanitisation,
- the reply cleaning (Python's `str.replace` and `str.strip`, written out),
- the `strftime` formats,
- the file path,
- the truncated description and the rest of the prompt,
- the gating in the main block that decides whether the model is called and whether a file is written.

The network, the model, the clock and the file system are not called. Their results come in as parameters:

- the decoded reply to the ranking query (`Fetcher.Reply`, or `None` when the request raised),
- the model, as a function from prompt to reply text (or `None` when the call raised),
- the two clock readings: one for the prompt's timestamp, one for the file name's date.

A run (`Pipeline.Main`) is described by what each stage did: the directory it created, the query it sent, the model call it made, the file it wrote, and the exit status.

Modules, one per part of the script:

- `Text`: substring search, `str.replace` with a non-empty target, and `str.strip` with CPython's whitespace table.
- `Dates`: dates, timestamps, zero-padded decimal fields, and the two `strftime` formats with their inverses.
- `Fetcher`: the product record and how a reply to the ranking query becomes a product or nothing.
- `Generator`: the prompt, the truncated description, the cleaning of the reply, and `generate_article`.
- `Writer`: the sanitised name and the output path.
- `Pipeline`: the main block.
- `Wrappers`: the `Option` type.

Three details of the script that the model keeps:

- A missing credential exits with status 1 (main.py:48).
- A fetch fails on statuses 400–599, the range `raise_for_status` rejects (main.py:18).
- `if c:` is false for `""`, so a reply that cleans down to nothing is not written (main.py:53).

## Model

| member | source | states |
|---|---|---|
| `Text.Replace` | main.py:43 | Python's `str.replace` with a non-empty target, as a left-to-right scan with non-overlapping matches. Deleting the target (an empty replacement) never lengthens the string, and replacing the target by itself changes nothing. `ReplaceAtFirst` and `ReplaceAbsent` together determine the result. |
| `Text.ReplaceAtFirst` | main.py:43 | At the leftmost occurrence of the target, the text before it is copied unchanged, the occurrence becomes the replacement, and the scan resumes right after it. |
| `Text.ReplaceAbsent` | main.py:43 | `replace` leaves a string unchanged when the target does not occur in it. |
| `Text.RemoveRunKeepsLeadingRun` | main.py:43 | After removing every run of n copies of one character, the output starts with k copies of it only if the input did. |
| `Text.RemoveRunLeavesNone` | main.py:43 | After `replace(run, "")` for a run of one repeated character (such as "```"), no occurrence of the run is left. This holds even where a removal brings two pieces of the input together. |
| `Text.IsSpace` | main.py:43 | The characters `strip()` removes: CPython's whitespace table, including the non-ASCII spaces such as U+3000. It has no contract of its own; `LStrip`, `RStrip` and `Strip` state what stripping does with it. |
| `Text.LStrip` | main.py:43 | The leading-whitespace removal of `strip()`: the result is a suffix of the input, it does not start with whitespace, and everything dropped is whitespace. |
| `Text.RStrip` | main.py:43 | The trailing-whitespace removal of `strip()`: the result is a prefix of the input, it does not end with whitespace, and everything dropped is whitespace. |
| `Text.Strip` | main.py:43 | `strip()` returns a slice of the input that neither starts nor ends with whitespace. Everything outside the slice is whitespace. |
| `Text.StripTrimmed` | main.py:43 | `strip()` returns a string that is already trimmed unchanged. |
| `Text.StripKeepsAbsent` | main.py:43 | `strip()` introduces no occurrence of a pattern that was absent from its input. |
| `Generator.Clean` | main.py:43 | Whatever the model replies, the cleaned text contains neither "```" nor "```markdown", and neither starts nor ends with whitespace. |
| `Generator.CleanKeepsCleanText` | main.py:43 | A reply without code fences that neither starts nor ends with whitespace comes out of cleaning unchanged: cleaning removes only fences and surrounding whitespace. |
| `Generator.CleanIdempotent` | main.py:43 | Cleaning an already cleaned reply returns it unchanged. |
| `Generator.Head` | main.py:33 | Python's `s[:100]`: a prefix of `s` of length min(100, \|s\|). |
| `Generator.FrontMatterDescription` | main.py:33 | The front-matter description is the first min(100, \|d\|) characters of the description, then "...". A description of at most 100 characters appears whole. |
| `Generator.Prompt` | main.py:28-40 | The f-string prompt: a newline, the eleven template lines each with four spaces of indentation and a newline, then four spaces. It has no contract of its own; `PromptContainsLine`, `PromptCarriesFrontMatter` and `PromptLinksWebsite` state what it contains. |
| `Generator.LinesContainEach` | main.py:28-40 | Each line of the prompt template appears in the laid-out prompt. |
| `Generator.PromptContainsLine` | main.py:28-40 | Every line of the prompt template, without its indentation, occurs in the prompt text. |
| `Generator.PromptCarriesFrontMatter` | main.py:28-34 | The prompt contains the requested front-matter fields: the title line (name and tagline), the date line with the formatted timestamp, and the description line with the truncated description. |
| `Generator.WebsiteLinkTarget` | main.py:38 | The closing link of the template carries the product's website in parentheses. |
| `Generator.PromptLinksWebsite` | main.py:38 | The prompt contains the product's website as a link target `(<website>)`. |
| `Generator.GenerateArticle` | main.py:41-45 | `generate_article` returns a value exactly when the model call returned, and that value is the cleaned reply. |
| `Dates.Pad2` | main.py:31 | `%02d`-style fields such as `%m`, `%d`, `%H`: two decimal digits that read back as the number. |
| `Dates.Pad4` | main.py:55 | `%Y` for years 1000–9999: four decimal digits that read back as the year. |
| `Dates.NumberAppend` | main.py:55 | Reading two more digits after a prefix multiplies the prefix's value by 100 and adds theirs. |
| `Dates.FormatDate` | main.py:55 | `%Y-%m-%d` gives ten characters: digits, with dashes at positions 4 and 7. Its three fields read back as the year, month and day. |
| `Dates.DateRoundTrip` | main.py:55 | Parsing a formatted date gives back the date. |
| `Dates.FormatDateInjective` | main.py:55 | Two dates format alike exactly when they are the same date. |
| `Dates.FormatDateExample` | main.py:55 | 5 March 2024 formats as `2024-03-05`. |
| `Dates.FormatTimestamp` | main.py:31 | `%Y-%m-%dT%H:%M:%S+09:00` gives 25 characters: the formatted date, `T`, then hour, minute and second as two decimal digits each, separated by colons, that read back as the time, then the fixed `+09:00`. |
| `Dates.TimestampRoundTrip` | main.py:31 | Parsing a formatted timestamp gives back the timestamp. |
| `Fetcher.Authorization` | main.py:14 | The `Authorization` header value is `Bearer ` followed by the access token, unchanged. |
| `Fetcher.TopProduct` | main.py:16-22 | The fetch yields a product exactly when the request returned, the status is not a 4xx/5xx error, the body has the `data.posts.edges` shape and the list is not empty. The product is then the first node. |
| `Writer.Sanitise` | main.py:54 | Every character of the sanitised name is alphanumeric, and the name is no longer than the input. |
| `Writer.SanitiseKeepsExactlyAlnum` | main.py:54 | The sanitised name is a subsequence of the input (original order). It holds every occurrence of every alphanumeric character of the input, and no other character. |
| `Writer.SanitiseKeepsAlnum` | main.py:54 | A name made only of alphanumeric characters is left unchanged. |
| `Writer.SanitiseIdempotent` | main.py:54 | Sanitising a sanitised name returns it unchanged. |
| `Writer.SanitiseExample` | main.py:54 | "Cool App!" sanitises to "CoolApp" (ASCII classification). |
| `Writer.PostPath` | main.py:55 | The path is `content/posts/`, the `%Y-%m-%d` date, `-`, the sanitised name and `.md`. Each piece sits at its fixed offset. |
| `Writer.PostPathSameFile` | main.py:55-56 | Two writes share a path exactly when they happen on the same day for names that sanitise alike. |
| `Writer.PostPathStaysInPostsDir` | main.py:54-55 | When `/` is not alphanumeric, no `/` follows the posts directory, so a product name cannot move the file to another directory. |
| `Writer.PostPathExample` | main.py:55 | "Cool App!" on 2024-03-05 is written to `content/posts/2024-03-05-CoolApp.md`. |
| `Pipeline.Main` | main.py:47-56 | Exit status is 1 exactly without both credentials, else 0. The directory is created exactly when the query is sent. The model is called only in a run that sent the query, and a file is written only in a run that called the model. |
| `Pipeline.MissingCredentialStopsEverything` | main.py:48 | Without both credentials the run exits with status 1, and it creates no directory, sends no query, calls no model and writes no file. The converse also holds. |
| `Pipeline.QueryOnlyWithCredentials` | main.py:48-50 | The query is sent exactly when both credentials are present. It goes to the ranking endpoint with `Bearer <token>`, and the posts directory is created in the same run. |
| `Pipeline.ModelCalledOnlyForProduct` | main.py:50-52 | The model is called exactly when the credentials are present and the fetch produced a product. It is sent that product's prompt. |
| `Pipeline.WriteOnlyWhenEveryStageSucceeds` | main.py:47-56 | A file is written exactly when both credentials are present, the fetch produced a product and the cleaned article is a non-empty text. |
| `Pipeline.WrittenArticle` | main.py:53-56 | The written file's path is derived from the write date and the product's sanitised name. Its content is exactly the article `generate_article` returned for the product, so it is non-empty, trimmed, and free of code fences. |
| `Pipeline.SameDaySameNameSamePath` | main.py:55-56 | Two writing runs name the same path exactly when they run on the same day for products whose names sanitise alike. |

## Left out

- The HTTP request and JSON decoding (main.py:13-19) are not modelled: the reply arrives decoded as far as the `edges` list. Malformed JSON or missing keys are folded into `edges: None`, which yields no product, as the `except` does.
- Product fields that the API might omit or return as `null` are not modelled. The record always carries all six fields as strings. So the `KeyError` that a missing field would raise at main.py:27-36 (outside any `try`) does not arise, nor the `TypeError` that a `null` description raises at main.py:33, nor the text `None` that a `null` website puts into the prompt at main.py:38. For the same reason the model has no empty-dict product for which `if p:` would be false.
- `genai.configure` and `GenerativeModel` (main.py:25-26) are outside the `try`, so failures there would crash the script. The model folds every model failure into `None`.
- The file-system effects (`os.makedirs`, `open`, `write`, main.py:10, 55-56) are modelled only as the directory and path the run uses and the content it writes. Their failures, which crash the script, are not modelled, and neither is the UTF-8 encoding of the file.
- The logging `print`s (main.py:21, 27) are not modelled.
- Writer.Sanitise: Python's Unicode `isalnum` tables are not reproduced. The classification is a parameter `isAlnum`, and the properties hold for any classification. `AsciiAlnum` (ASCII digits and letters) is used only for the "Cool App!" examples (`SanitiseExample`, `PostPathExample`). `PostPathStaysInPostsDir` assumes only that `/` is not alphanumeric, as in Python.
- Dates.Pad4: years before 1000 are outside `ValidDate`, because `%Y` padding for them differs between C libraries. The clock readings are parameters, and nothing relates the prompt's timestamp to the file's date: the script reads the clock twice.
- The order of the stages within a run (the directory is created before the query is sent) is not modelled: a `Run` records what each stage did, not when.
- File contents across runs are not modelled, so neither is the overwrite when a later run writes to the same path, nor two runs racing on it (concurrent invocations). The model covers only which runs share a path (`PostPathSameFile`, `SameDaySameNameSamePath`).
