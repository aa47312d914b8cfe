# SegurosAI chatbot core, modelled in Dafny

SegurosAI is an insurance chatbot. A Flask endpoint `/chat` takes a user
message. It embeds the message and looks up the closest question in a corpus
of precomputed embeddings. It builds a prompt that either carries the matched
record's context (a score of at least 0.80) or asks the model directly. It has
a generative model answer the prompt. Then it cleans the answer of repeated
links. This project models the three pieces of `gemini/chatbot_app.py` that
hold decisions, and proves what they promise:

- `buscar_similitud`, the best-match search, is module `Search` (`search.dfy`).
  - `BuscarSimilitud` is a method with the source's append loop. Its result is
    proved equal to the specification `BestMatch` over the scored corpus.
  - The descending sort is specified as a stable insertion sort, `SortDesc`: a
    permutation, in descending order, whose head is the first highest-scoring
    record.
- `quitar_urls_duplicadas`, the link cleaner, is module `Sanitizer`
  (`sanitizer.dfy`).
  - `QuitarUrlsDuplicadas` is a method with the source's nested loops over the
    lines and the collected URLs, and its seen set. It is proved equal to
    `Sanitize`.
  - `Sanitize` is described by small functions, one per loop (`Step`,
    `ProcessLine`, `Rewrite`, `KeepNonBlank`).
  - `re.findall(r'https?://\S+', ...)` is a hand-written scanner (`ScanUrls`).
- The `/chat` handler is module `Chat` (`chat.dfy`).
  - `ReadMessage` handles the stripped field `mensaje` and the 400 error.
  - `Route` chooses between the two prompt templates, with the exact text of
    the source, and gives the fields `usó_contexto` and `similitud`.
  - `HandleChat` is the handler. It calls `BuscarSimilitud` and
    `QuitarUrlsDuplicadas`.
- Module `Text` (`text.dfy`) writes out the Python string operations the code
  relies on: `strip`, `split('\n')`, `'\n'.join`, `in` and `replace`.
- Module `Wrappers` (`wrappers.dfy`) holds `Option` and `Result`.

The outside world enters as function-valued parameters:

- `embed`: the embedding service (`embed_user_query`).
- `cosine`: the similarity routine.
- `generar`: the generative model (`generar_respuesta`).

Scores are exact reals.

The link cleaner does not keep the first occurrence of a link. It works as
follows:

- It collects every bare `https?://\S+` match of the whole text, repeats
  included.
- It deletes, with `str.replace`, every occurrence of an already-seen URL from
  each line it then meets.
- Because the match list holds repeats, a URL matched twice is deleted even
  from the line where it first appears (`RepeatedUrlDeletedEverywhere`).
- It strips lines and drops blank ones.

## Model

| member | source | states |
|---|---|---|
| Wrappers.Option.GetOr | gemini/chatbot_app.py:51 | definition: `dict.get(key, default)`, the value when present and the default otherwise |
| Text.TrimLeft | gemini/chatbot_app.py:66 | `lstrip` keeps a suffix of the input, removes only whitespace, and leaves no leading whitespace |
| Text.TrimRight | gemini/chatbot_app.py:66 | `rstrip` keeps a prefix of the input, removes only whitespace, and leaves no trailing whitespace |
| Text.Strip | gemini/chatbot_app.py:66 | `strip()` leaves no whitespace at either end; it is empty exactly when the input is all whitespace |
| Text.StripIsSlice | gemini/chatbot_app.py:66 | `strip()` keeps a contiguous slice of the input with only whitespace around it |
| Text.StripStripped | gemini/chatbot_app.py:113 | `strip()` leaves a string with no whitespace at either end unchanged |
| Text.StripChars | gemini/chatbot_app.py:111-112 | every character of a stripped line occurs in the line |
| Text.Split | gemini/chatbot_app.py:103 | `split('\n')` gives at least one piece and no piece holds a line feed |
| Text.JoinSplit | gemini/chatbot_app.py:103 | joining the pieces of a split with `'\n'` gives back the text |
| Text.SplitJoin | gemini/chatbot_app.py:113 | splitting a join of at least one line, none holding a line feed, gives back the lines |
| Text.JoinStripped | gemini/chatbot_app.py:113 | a join of non-empty stripped lines starts with the first line's first character and ends with the last line's last character, so it has no whitespace at either end |
| Text.Join | gemini/chatbot_app.py:113 | definition: `'\n'.join`, the lines with a line feed between each two |
| Text.Contains | gemini/chatbot_app.py:106 | definition: `url in nueva_linea`, some position of the line starts an occurrence |
| Text.ReplaceAll | gemini/chatbot_app.py:108 | definition: `str.replace`, every non-overlapping occurrence replaced, scanning left to right |
| Text.DeleteChars | gemini/chatbot_app.py:108 | `replace(url, '')` only removes characters |
| Text.DeleteShortens | gemini/chatbot_app.py:108 | `replace(url, '')` never lengthens the line |
| Text.ReplaceAbsent | gemini/chatbot_app.py:106-108 | `replace` of a non-empty string the line does not contain leaves the line unchanged |
| Search.ScoreAll | gemini/chatbot_app.py:35-38 | definition: the list `similitudes`, each record paired with its score, in corpus order |
| Search.InsertDesc | gemini/chatbot_app.py:43 | one insertion step of the stable sort adds exactly the new pair; when the list is empty or its head does not score above the new pair, the new pair goes first, ahead of the pairs it ties with |
| Search.InsertDescSorted | gemini/chatbot_app.py:43 | an insertion step keeps the list in descending score order |
| Search.SortDesc | gemini/chatbot_app.py:43 | `sort(reverse=True, key=score)` returns a permutation of the pairs in descending score order |
| Search.FirstArgMax | gemini/chatbot_app.py:43-44 | the chosen position has the highest score, and every earlier position scores strictly less |
| Search.SortDescHead | gemini/chatbot_app.py:43-44 | the head of the stable descending sort is the first highest-scoring pair, so ties go to the earliest record |
| Search.ToMatch | gemini/chatbot_app.py:47-51 | definition: the returned record, with `contexto` falling back to `respuesta` |
| Search.BestMatch | gemini/chatbot_app.py:40-54 | no match for an empty corpus; a match exactly when some score is at least `umbral` (equality counts); the match's score is at least `umbral`, no score is above it, and it is the score of some pair |
| Search.BestMatchIsFirstBest | gemini/chatbot_app.py:43-51 | a match is the first corpus record with the highest score; its `similitud`, `pregunta` and `respuesta` are that record's, and `contexto` is its context or, when absent, its answer |
| Search.MatchIffAboveThreshold | gemini/chatbot_app.py:36-54 | the search returns a match exactly when some corpus record scores at least `umbral` |
| Search.BuscarSimilitud | gemini/chatbot_app.py:33-54 | the method (append loop, sort, head, threshold) returns the specified best match for the embedded query |
| Sanitizer.UrlLenAt | gemini/chatbot_app.py:100 | definition: the length of the `https?://\S+` match at a position, 0 when there is none |
| Sanitizer.RunEnd | gemini/chatbot_app.py:100 | the run of non-whitespace characters starting at a position ends at the first whitespace or at the end of the text |
| Sanitizer.UrlAt | gemini/chatbot_app.py:100 | a scanner match at a position is a `https?://\S+` string that sits in the text at that position |
| Sanitizer.ScanUrls | gemini/chatbot_app.py:100 | definition: the scanner's matches from a position on, left to right, without overlap |
| Sanitizer.FindUrls | gemini/chatbot_app.py:100 | definition: `re.findall(r'https?://\S+', texto)`, the matches of the whole text |
| Sanitizer.ScanUrlsFound | gemini/chatbot_app.py:100 | every string `findall` collects has the URL shape and occurs in the text |
| Sanitizer.ScanUrlsEmpty | gemini/chatbot_app.py:100 | `findall` finds nothing exactly when no position of the text starts a match |
| Sanitizer.Step | gemini/chatbot_app.py:106-110 | one inner iteration: the seen set grows by at most the URL; the line changes only if the URL was already seen, and then every occurrence is deleted; afterwards the URL is seen iff it was seen before or is in the line |
| Sanitizer.ProcessLine | gemini/chatbot_app.py:104-110 | the inner loop only grows the seen set, and only with URLs of the list |
| Sanitizer.Rewrite | gemini/chatbot_app.py:103-110 | the outer loop rewrites each line once, keeping the number of lines, and the seen set only grows |
| Sanitizer.KeepNonBlank | gemini/chatbot_app.py:111-112 | no more lines are kept than there were |
| Sanitizer.KeepNonBlankClean | gemini/chatbot_app.py:111-112 | every kept line is non-empty and has no whitespace at either end |
| Sanitizer.KeepNonBlankAppend | gemini/chatbot_app.py:111-112 | keeping non-blank lines distributes over concatenation |
| Sanitizer.Sanitize | gemini/chatbot_app.py:99-113 | definition: split, rewrite every line against the collected URLs, keep the non-blank lines stripped, join and strip |
| Sanitizer.QuitarUrlsDuplicadas | gemini/chatbot_app.py:99-113 | the method (nested loops, seen set, kept lines, final join and strip) returns `Sanitize(texto)` |
| Sanitizer.ProcessLineChars | gemini/chatbot_app.py:104-110 | the inner loop only deletes characters from a line |
| Sanitizer.RewriteNoLineFeed | gemini/chatbot_app.py:103-110 | rewriting lines without line feeds gives lines without line feeds |
| Sanitizer.KeepNonBlankNoLineFeed | gemini/chatbot_app.py:111-112 | stripping and filtering add no line feed |
| Sanitizer.SanitizeLines | gemini/chatbot_app.py:99-113 | the result is the join of the kept lines; each is non-empty and stripped; there are no more of them than input lines; the final `strip()` changes nothing; when at least one line is kept, splitting the result gives the kept lines back |
| Sanitizer.JoinKeptStripped | gemini/chatbot_app.py:113 | the final `strip()` of the joined kept lines is the identity |
| Sanitizer.JoinKeptSplit | gemini/chatbot_app.py:113 | splitting the joined kept lines gives them back, when there is at least one (`split` of the empty string gives one empty piece) |
| Sanitizer.OriginsSpec | gemini/chatbot_app.py:103-112 | kept line `k` is the stripped input line at position `Origins[k]`; the positions strictly increase; a position is missing exactly when its line is blank |
| Sanitizer.OriginsLength | gemini/chatbot_app.py:111-112 | there is one recorded position per kept line |
| Sanitizer.OriginsPick | gemini/chatbot_app.py:111-112 | kept line `k` is the stripped line at its recorded position |
| Sanitizer.OriginsIncrease | gemini/chatbot_app.py:103-112 | the recorded positions strictly increase, so input order is kept |
| Sanitizer.OriginsComplete | gemini/chatbot_app.py:111 | a line's position is recorded exactly when the line is not blank |
| Sanitizer.RewriteAppend | gemini/chatbot_app.py:103-110 | rewriting two blocks of lines is rewriting the first, then the second with the seen set the first leaves |
| Sanitizer.RewriteAt | gemini/chatbot_app.py:103-110 | line `j` of the rewrite is line `j` after the inner loop, run with the seen set the earlier lines left |
| Sanitizer.SanitizeKeepsOrder | gemini/chatbot_app.py:103-112 | output line `k` comes from input line `j`, processed with the seen set of the lines before it and then stripped; earlier output lines come from earlier input lines |
| Sanitizer.RewriteNoUrls | gemini/chatbot_app.py:105 | with no collected URL the inner loop changes no line |
| Sanitizer.SanitizeWithoutUrls | gemini/chatbot_app.py:100-113 | a text with no `https?://` match only has its lines stripped and its blank lines dropped |
| Sanitizer.ProcessLineUntouched | gemini/chatbot_app.py:105-110 | a line containing none of the URLs passes the inner loop unchanged |
| Sanitizer.RepeatedUrlDeleted | gemini/chatbot_app.py:105-110 | a URL still to be met twice (once, if already seen) is deleted from the line, which is then marked as seen, when no other URL interferes |
| Sanitizer.RepeatedUrlDeletedEverywhere | gemini/chatbot_app.py:100-110 | a URL `findall` matched two or more times is deleted from every line containing it, the line of its first occurrence included, when no other URL interferes |
| Chat.GroundedPrompt | gemini/chatbot_app.py:73-79 | definition: the grounded template, with the quoted message and the quoted context |
| Chat.PlainPrompt | gemini/chatbot_app.py:81-83 | definition: the plain template, with the quoted message |
| Chat.Prompt | gemini/chatbot_app.py:72-83 | definition: the grounded template when there is a match, the plain one otherwise |
| Chat.PromptQuotesMessage | gemini/chatbot_app.py:72-83 | both prompts quote the message |
| Chat.GroundedQuotesMessage | gemini/chatbot_app.py:73-79 | the grounded prompt quotes the message |
| Chat.PlainQuotesMessage | gemini/chatbot_app.py:81-83 | the plain prompt quotes the message |
| Chat.PromptQuotesContext | gemini/chatbot_app.py:72-79 | the grounded prompt quotes the matched context |
| Chat.GroundedOpening | gemini/chatbot_app.py:73 | the grounded prompt has a space after the opening sentence |
| Chat.PlainOpening | gemini/chatbot_app.py:81 | the plain prompt goes straight from the opening sentence into `Responde`, with no space |
| Chat.PromptShowsGrounding | gemini/chatbot_app.py:72-83 | both prompts open with the same sentence, and the next character is a space exactly for the grounded prompt |
| Chat.PromptsDiffer | gemini/chatbot_app.py:72-83 | a grounded prompt never equals a plain prompt, whatever the messages |
| Chat.ReadMessage | gemini/chatbot_app.py:66-68 | the message is the stripped field (missing field = `""`); it is refused with status 400, "Mensaje vacío", exactly when the field is all whitespace |
| Chat.Route | gemini/chatbot_app.py:72-91 | `usó_contexto` is true exactly when there is a match; `similitud` is the match's score or absent; the prompt quotes the message, quotes the context when there is a match, and shows which template it is |
| Chat.HandleChat | gemini/chatbot_app.py:64-91 | a blank message gives the 400 error whatever the corpus and providers. Otherwise: `usó_contexto` holds exactly when some record scores at least 0.80; `similitud` is present exactly then, is at least 0.80, no score is above it, it is some record's score, and it is the score of the specified best match; the reply is the cleaned model answer to the routed prompt |

## Left out

- The Gemini calls. The embedding service, the chat model and `genai.configure`
  are remote services. `embed` and `generar` are parameters; their results are
  taken as given. Both are total functions, so a failed call or an exception
  raised by either service is not modelled.
- `cosine_similarity` computes in floating point in a foreign library. It is
  the parameter `cosine`, and scores are exact reals. NaN scores and rounding
  are not modelled.
- Flask, `request.get_json`, `jsonify`, `send_from_directory`, `load_dotenv`,
  `os.getenv` and the JSON corpus load at import time are I/O and
  configuration.
  - The corpus is the parameter `qaData`.
  - The request field is the parameter `campo`, `None` when the key is absent.
  - A body that is not JSON, or a `mensaje` that is not a string, makes the
    source fail before any logic runs. Neither is modelled.
- A missing key of a corpus record raises `KeyError` in the source, and `Item`
  always has every key except `contexto`. A missing `embedding` raises for any
  record, during the scoring loop. A missing `pregunta` or `respuesta` raises
  only for the winning record and only when it reaches the threshold, since
  those keys are read only there; a missing `contexto` falls back to
  `respuesta`.
- Search.SortDesc: the in-place `list.sort` is modelled as a function on
  sequences, a stable insertion sort. Aliasing of the Python list and the
  sorting algorithm itself (Timsort) are not modelled; only the result of a
  stable descending sort is.
- The regular-expression engine. `re.findall(r'https?://\S+', ...)` is a
  hand-written scanner: the scheme, then the longest non-empty run of
  non-whitespace, matches without overlap, left to right.
- Whitespace is the ASCII set (space, tab, line feed, carriage return,
  vertical tab, form feed). That one set is used for `strip()`, for `\S` and
  for the blank-line test. Python also treats Unicode spaces (and some
  separators) as whitespace.
- Strings are sequences of Unicode code points. Encodings are not modelled.
- Sanitizer.RepeatedUrlDeletedEverywhere: the property is stated under two
  hypotheses on the line. First, no other collected URL occurs in it. Second,
  deleting the URL leaves no occurrence of any collected URL. The second
  follows from the first and the shape of the matches, but that is not proved
  here, so it stays a hypothesis. With overlapping URLs (one a substring of
  another), the deletion depends on the order of the match list, and that
  case is covered only by the general equation `QuitarUrlsDuplicadas ==
  Sanitize`. The same two hypotheses are on Sanitizer.RepeatedUrlDeleted.
- `gemini/conversar.py` is a command-line client (`input`, `print`, an HTTP
  POST) with no logic of its own. It is not part of this model.
- The `/` route that serves `chat.html` and the `__main__` server start are
  not part of this model.
