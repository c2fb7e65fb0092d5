# Word timings and embedding selection, in Dafny

This project models two parts of the video-generation backend and proves properties of them.

**The ElevenLabs word-timing grouper** lives in `backend/modal/services/tts/elevenlabs.py`.
- The speech API returns three parallel lists: the spoken characters, a start time for each, and an end time for each.
- `_extract_word_timings` groups them into word records with the fields text, start, end, char_start_index and char_end_index.
- A word ends at a space, a newline or a tab.
- The times are only copied, so their type is a parameter `T`. The literal `0` that the code uses for a missing start time is a parameter `zero`.

The model has three layers:
- `ElevenLabs.ExtractWordTimings` is the loop, written as a Dafny method. `ElevenLabs.SkipSeparators` is its inner loop.
- `ElevenLabs.WordTimings` is a position-based reference definition. It says which record every separator position emits and which record follows the last character. The loop is proved to return exactly that value.
- Module `ElevenLabsProperties` proves properties of the reference definition. It distinguishes characters that end in a non-separator from characters that end in separators.
  - With a non-separator at the end and no IndexError raised, the output is exactly the maximal runs of non-separators that have content, left to right.
  - With separators at the end, and an end time for every character but the last, the last word is repeated once per trailing separator, because the code does not reset the current word when no non-separator follows. `TrailingSeparatorsRepeatLastWord` states this repetition exactly.

`ElevenLabsTimed.ElevenLabsTimedService.ExtractWordTimings` is the delegating method of the legacy service class.

**The embedding service** lives in `backend/modal/services/embeddings.py`. Module `Embeddings` models these parts:
- **Provider and model resolution** in `EmbeddingService.__init__`. The environment is a `map<string, string>` parameter.
- **The one-time Gemini configuration** `_configure_gemini`. A class `EmbeddingService` holds the flag and the client. Whether the Gemini library can be imported is a boolean parameter.
  - `EmbeddingService.Valid` records the invariant of the source's fields: the provider is supported, and the Gemini client is stored exactly when the flag is set. Every method keeps it. Since an embedding does not use the client, the invariant serves only to show that a Gemini embedding is returned with a client stored.
- **Dispatch** in `embed_text` and `embed_batch`. An embedding comes from a foreign model, so it is represented by the request that produced it: the backend, the model name and the text.
- **Top-k selection** in `find_most_similar`, over the already computed similarity scores, as integers.
  - `argsort` does not fix the order among equal scores. So the answer is specified by the predicate `IsTopK`, which allows any tie order.
  - One concrete ranking is shown to meet `IsTopK`.
  - `TopKScoresDetermined` proves that every answer meeting `IsTopK` lists the same scores.

Module `PyStr` models the parts of Python's `str` that the core relies on: `strip()` with the `isspace()` character set, and `lower()`. Module `Wrappers` holds `Option`, the Python exceptions that can be raised (`IndexError`, `ValueError`, `ImportError`) and `Result`.

## Model

| member | source | states |
|---|---|---|
| PyStr.StripEmptyIffBlank | backend/modal/services/tts/elevenlabs.py:194 | `s.strip()` is empty exactly when every character of `s` is Python whitespace |
| PyStr.StripIsNonEmpty | backend/modal/services/tts/elevenlabs.py:217 | the truth value of `s.strip()` is `HasContent(s)`: `s` has a non-whitespace character |
| PyStr.IsWhitespace | backend/modal/services/tts/elevenlabs.py:194 | the 29 characters of `str.isspace()` that `strip()` removes; none of them is an ASCII digit or an ASCII letter |
| PyStr.StripLeading | backend/modal/services/tts/elevenlabs.py:194 | `lstrip()` returns a suffix of `s`; what it removes is all whitespace, and what it keeps does not start with whitespace |
| PyStr.StripTrailing | backend/modal/services/tts/elevenlabs.py:194 | `rstrip()` returns a prefix of `s`; what it removes is all whitespace, and what it keeps does not end with whitespace |
| PyStr.Strip | backend/modal/services/tts/elevenlabs.py:194 | `strip()` is `rstrip()` of `lstrip()`, so it is no longer than what `lstrip()` keeps, which is no longer than `s` |
| PyStr.StripEnds | backend/modal/services/tts/elevenlabs.py:194 | a non-empty result of `strip()` starts and ends with a non-whitespace character |
| PyStr.Lower | backend/modal/services/embeddings.py:41 | for ASCII letters: `lower()` keeps the length and lower-cases each ASCII upper-case letter, leaving every other character as it is |
| PyStr.LowerOfLower | backend/modal/services/embeddings.py:41 | lower-casing a string that has no ASCII upper-case letters leaves it unchanged |
| ElevenLabs.SeparatorIsWhitespace | backend/modal/services/tts/elevenlabs.py:192 | each of the three word separators ' ', '\n' and '\t' of the `in` tests at lines 192 and 201 (the predicate `IsSeparator`) is Python whitespace |
| ElevenLabs.SeparatorsStripToEmpty | backend/modal/services/tts/elevenlabs.py:192-194 | a text made only of separators strips to the empty string, so the `text.strip()` test fails for it |
| ElevenLabs.StartTime | backend/modal/services/tts/elevenlabs.py:207 | `start_times[k] if k < len(start_times) else 0` (also line 185): the start time at `k` when it exists, otherwise 0 |
| ElevenLabs.NextNonSeparator | backend/modal/services/tts/elevenlabs.py:200-202 | the scan from `i` stops at the first non-separator at or after `i`, or at the end |
| ElevenLabs.NextNonSeparatorSkips | backend/modal/services/tts/elevenlabs.py:200-202 | every position the scan skips over holds a space, newline or tab |
| ElevenLabs.SkipSeparators | backend/modal/services/tts/elevenlabs.py:200-202 | the inner `while` loop returns the position of the first non-separator after the separator, or the length |
| ElevenLabs.ScanSeparator | backend/modal/services/tts/elevenlabs.py:192-211 | one separator of the loop: it fails exactly when the reference definition raises IndexError at this position; otherwise the words recorded so far and the current word are those the reference definition gives for the next position |
| ElevenLabs.StepNonSeparator | backend/modal/services/tts/elevenlabs.py:212-214 | a non-separator is appended to the current word, whose char_end_index becomes `i`; the word is still the run of non-separators ending at `i`, from the run's start |
| ElevenLabs.EmitsAtSeparator | backend/modal/services/tts/elevenlabs.py:192-197 | at a separator a record is emitted exactly when the current word's text has content; that record is the current word with end `end_times[i-1]` and char_end_index `i - 1` |
| ElevenLabs.StepSeparator | backend/modal/services/tts/elevenlabs.py:199-211 | after a separator the current word is a fresh empty word at the next non-separator, with start `start_times[next]` or 0 and both indices `next`; when no non-separator follows, it is the word just closed |
| ElevenLabs.ErrorPersists | backend/modal/services/tts/elevenlabs.py:195 | once a separator has raised IndexError, the outcome of the later positions is the same IndexError |
| ElevenLabs.FinalWordMatches | backend/modal/services/tts/elevenlabs.py:216-219 | after the loop the current word is appended, with the last end time, exactly when its text has content |
| ElevenLabs.EmitsAt | backend/modal/services/tts/elevenlabs.py:192-197 | a record is emitted at separator position `q` when the word held there has content; such a `q` is a separator after position 0, with a non-separator somewhere before it |
| ElevenLabs.SeparatorWordsBounds | backend/modal/services/tts/elevenlabs.py:191-211 | about `SeparatorWordsBefore`, the reference definition of the loop up to position `p` (the records the separators before `p` emit, left to right): there are fewer than `p` of them, and the only error is IndexError, which needs `p > len(end_times) + 1` |
| ElevenLabs.SeparatorWord | backend/modal/services/tts/elevenlabs.py:195-197 | the reference definition of the record appended at an emitting separator `q`: the held run, with content, from its start index to the last non-separator before `q`, with start `start_times[char_start_index]` (or 0), closed with char_end_index `q-1` and end `end_times[q-1]` |
| ElevenLabs.FinalWords | backend/modal/services/tts/elevenlabs.py:216-219 | the reference definition of the record appended after the loop: at most one, with content, ending at `end_times[-1]`, with indices inside the characters |
| ElevenLabs.WordTimings | backend/modal/services/tts/elevenlabs.py:173-221 | the position-by-position reference definition of the whole grouper: `[]` when an input list is empty; IndexError only when there are more than `len(end_times) + 1` characters; otherwise at most one record per character |
| ElevenLabs.ExtractWordTimings | backend/modal/services/tts/elevenlabs.py:173-221 | returns `[]` when any of the three lists is empty, and otherwise exactly the reference definition `WordTimings`, including its IndexError |
| ElevenLabsTimed.ElevenLabsTimedService.ExtractWordTimings | backend/modal/services/tts/elevenlabs.py:334-349 | returns exactly what the module-level grouper returns for the same inputs |
| ElevenLabsProperties.SeparatorWordHasShape | backend/modal/services/tts/elevenlabs.py:192-197 | a record emitted at separator `q` is a whole maximal run of non-separators with content. Its char_start_index is where the run starts, its start is that start time (or 0), its char_end_index is `q - 1` and its end is `end_times[q-1]` |
| ElevenLabsProperties.SeparatorWordsShape | backend/modal/services/tts/elevenlabs.py:191-197 | every record emitted by the separators has that shape, and their char_end_index values strictly increase |
| ElevenLabsProperties.EmittedWordIsListed | backend/modal/services/tts/elevenlabs.py:194-197 | when no IndexError is raised, every separator that emits a word contributes its record to the output |
| ElevenLabsProperties.SeparatorWordsErrIff | backend/modal/services/tts/elevenlabs.py:195 | the scan raises an error exactly when some separator emits a word whose preceding position is past the end times, and that error is IndexError |
| ElevenLabsProperties.SeparatorWordsCovered | backend/modal/services/tts/elevenlabs.py:195 | no IndexError is raised while the end times reach the position before every separator scanned |
| ElevenLabsProperties.FinalWordsAreWords | backend/modal/services/tts/elevenlabs.py:216-219 | the word appended after the loop is a run of non-separators with content, at its recorded start index |
| ElevenLabsProperties.WordTextsAreWords | backend/modal/services/tts/elevenlabs.py:191-219 | for every input: no record's text holds a space, newline or tab; no record's text strips to the empty string; char_start_index <= char_end_index; the text is the characters from char_start_index on |
| ElevenLabsProperties.WordTimingsErrIff | backend/modal/services/tts/elevenlabs.py:179-197 | the grouper raises exactly when the lists are non-empty and some emitting separator needs an end time past the list; it is then IndexError, and never when there is at least one end time per character but the last |
| ElevenLabsProperties.SeparatorWordsAreRuns | backend/modal/services/tts/elevenlabs.py:191-197 | when the characters end in a non-separator and no IndexError is raised, each record emitted at a separator is a maximal run with content |
| ElevenLabsProperties.SeparatorWordsDisjoint | backend/modal/services/tts/elevenlabs.py:191-197 | under the same premises, the index ranges of those records are disjoint and in increasing order |
| ElevenLabsProperties.SeparatorWordsClean | backend/modal/services/tts/elevenlabs.py:191-215 | when the characters end in a non-separator and no IndexError is raised, each record emitted at a separator is a maximal run with content, closed at its last character with that character's end time, and the records are in order with disjoint ranges |
| ElevenLabsProperties.FinalWordsClean | backend/modal/services/tts/elevenlabs.py:216-219 | when the characters end in a non-separator, a last record is appended exactly when the last run has content; it is that run, ending at the last character with the last end time |
| ElevenLabsProperties.WordTimingsClean | backend/modal/services/tts/elevenlabs.py:183-219 | when the characters end in a non-separator and no IndexError is raised: every record is a maximal run with content `characters[char_start_index..char_end_index]`, with start `start_times[char_start_index]` (or 0); records are in strictly increasing, disjoint index ranges; every record but the one reaching the last character ends at `end_times[char_end_index]`; that one is last, ends at `end_times[-1]`, and exists exactly when the last run has content |
| ElevenLabsProperties.SeparatorWordsComplete | backend/modal/services/tts/elevenlabs.py:191-197 | when the characters end in a non-separator and no IndexError is raised, every maximal run with content that a separator follows is emitted by that separator |
| ElevenLabsProperties.WordTimingsCleanComplete | backend/modal/services/tts/elevenlabs.py:183-219 | when the characters end in a non-separator and no IndexError is raised, every maximal run of non-separators with content appears as a record with exactly its index range |
| ElevenLabsProperties.SeparatorWordsOfPrefix | backend/modal/services/tts/elevenlabs.py:191-197 | appending characters after a non-separator does not change the records emitted before it |
| ElevenLabsProperties.EmitsInTrailing | backend/modal/services/tts/elevenlabs.py:194-204 | a separator after the last non-separator emits the held last word again, closed at the position before it, exactly when that word has content |
| ElevenLabsProperties.SeparatorWordsInTrailing | backend/modal/services/tts/elevenlabs.py:194-204 | the separators after the last non-separator emit the held word once each, with the end time of the position before each |
| ElevenLabsProperties.FinalWordsInTrailing | backend/modal/services/tts/elevenlabs.py:216-219 | after trailing separators the appended word is the held word once more, keeping char_end_index at the position before the last separator, with the last end time |
| ElevenLabsProperties.TrailingSeparatorsRepeatHeldWord | backend/modal/services/tts/elevenlabs.py:194-219 | when there is an end time for every character but the last: with k trailing separators after a last run with content, the output is the output without them, with that run's record repeated k more times |
| ElevenLabsProperties.TrailingSeparatorsOfBlankRun | backend/modal/services/tts/elevenlabs.py:194-219 | trailing separators after a last run without content change nothing |
| ElevenLabsProperties.TrailingSeparatorsRepeatLastWord | backend/modal/services/tts/elevenlabs.py:194-219 | when there is an end time for every character but the last: k >= 1 trailing separators after a run with content make its record appear k + 1 times at the end; the copy at position i carries `end_times[i-1]`, and the last copy carries `end_times[-1]` with char_end_index at the position before the last separator. After a run without content they change nothing |
| Embeddings.Getenv | backend/modal/services/embeddings.py:39 | `os.getenv(name)` (also lines 51 and 77): the value when the variable is set, even to the empty string, and None exactly when it is not |
| Embeddings.Truthy | backend/modal/services/embeddings.py:40 | Python truthiness of an optional string: None and the empty string are the only falsy values |
| Embeddings.OrElse | backend/modal/services/embeddings.py:40 | Python's `x or y` (also line 50): the first operand when it is truthy, else the second, so the result is empty only when both are falsy |
| Embeddings.ResolvedProvider | backend/modal/services/embeddings.py:39-41 | the provider is the explicit argument if non-empty, else EMBEDDING_PROVIDER if set and non-empty, else "sentence-transformers", lower-cased |
| Embeddings.EmptyProviderIsAbsent | backend/modal/services/embeddings.py:40 | an empty explicit provider resolves like no provider |
| Embeddings.ResolvedProviderIsFixed | backend/modal/services/embeddings.py:39-41 | passing a resolved provider back in resolves to itself under any environment |
| Embeddings.StringLess | backend/modal/services/embeddings.py:46 | Python's `<` on strings, which `sorted()` uses: a proper prefix is smaller, and a string is never smaller than one of its own prefixes |
| Embeddings.Join | backend/modal/services/embeddings.py:46 | `sep.join(xs)`: empty for no parts, otherwise starts with the first part and is as long as the parts plus one separator between each pair of neighbours |
| Embeddings.SortedProviders | backend/modal/services/embeddings.py:46 | `sorted(SUPPORTED_PROVIDERS)`: every supported provider exactly once, in strictly ascending Python string order |
| Embeddings.UnsupportedProviderMessage | backend/modal/services/embeddings.py:44-47 | the ValueError message quotes the resolved provider and ends with the sorted supported providers joined by ", ", that is "gemini, sentence-transformers" |
| Embeddings.ResolveConfig | backend/modal/services/embeddings.py:39-51 | a ValueError naming the provider and the sorted supported list exactly when the resolved provider is unsupported. Otherwise the provider is supported; model_name is the argument, or DEFAULT_ST_MODEL when it is absent or empty; gemini_model is GEMINI_EMBEDDING_MODEL when it is set (even to ""), else the default |
| Embeddings.DefaultConfiguration | backend/modal/services/embeddings.py:39-50 | without a provider argument or a non-empty EMBEDDING_PROVIDER, the service uses sentence-transformers, with DEFAULT_ST_MODEL unless a model is given |
| Embeddings.GeminiSetup | backend/modal/services/embeddings.py:77-92 | a missing or empty GOOGLE_API_KEY raises ValueError before the import is tried; a failed import raises ImportError; otherwise the client is configured with that key |
| Embeddings.ModelFor | backend/modal/services/embeddings.py:132 | Gemini is asked for `gemini_model` (also line 149), and sentence-transformers loads `model_name` (line 69) |
| Embeddings.BackendFor | backend/modal/services/embeddings.py:170-172 | the provider "gemini" is served by Gemini, and every other provider by sentence-transformers |
| Embeddings.EmbeddingService.FromConfig | backend/modal/services/embeddings.py:49-55 | the new service stores the resolved settings, with no Gemini client and the flag false |
| Embeddings.EmbeddingService.Create | backend/modal/services/embeddings.py:27-55 | constructing the service raises exactly ResolveConfig's ValueError; otherwise the new service holds the resolved settings and is not configured |
| Embeddings.EmbeddingService.ConfigureGemini | backend/modal/services/embeddings.py:72-94 | when already configured, returns at once and changes nothing. Otherwise, on a setup error it raises that error and changes nothing; on success it stores the client, sets the flag and leaves the settings alone |
| Embeddings.EmbeddingService.EmbedText | backend/modal/services/embeddings.py:160-172 | for "gemini": configures Gemini first and fails with its error, else embeds with the Gemini model. A first call that succeeds stores the client and sets the flag, so later calls skip the configuration; a first call that fails changes nothing. A Gemini embedding is only returned with a client stored. For any other provider: embeds with sentence-transformers and the model name, changing nothing |
| Embeddings.EmbeddingService.EmbedBatch | backend/modal/services/embeddings.py:143-190 | an empty batch returns `[]` and changes nothing. Otherwise it returns one embedding per text, in order, from the provider's backend and model; it fails only on a first Gemini configuration that fails, with that error. As for `embed_text`, a first Gemini configuration stores the client and sets the flag when it succeeds and changes nothing when it fails |
| Embeddings.Ranking | backend/modal/services/embeddings.py:234 | the ranking lists `n` indices, exactly the indices `0..n-1` |
| Embeddings.RankingIsPermutationByScore | backend/modal/services/embeddings.py:234 | the ranking has no repeated index and runs from the highest score to the lowest |
| Embeddings.PrefixOfRankingDominates | backend/modal/services/embeddings.py:234 | no index outside the first `m` places of the ranking scores higher than one inside them |
| Embeddings.FindMostSimilar | backend/modal/services/embeddings.py:211-239 | `top_k` defaults to 5; returns `min(top_k, n)` pairs with distinct indices in `[0, n)`; each pair's score is the similarity at its index; scores do not increase; no index left out scores higher than any index returned |
| Embeddings.DefaultTopK | backend/modal/services/embeddings.py:214 | with the default `top_k = 5`, the result is a top-5 answer of `min(5, n)` pairs |
| Embeddings.ScoreNotAbove | backend/modal/services/embeddings.py:234-237 | no top-k answer has a higher score at some place than another top-k answer at the same place |
| Embeddings.TopKScoresDetermined | backend/modal/services/embeddings.py:234-237 | any two top-k answers have the same length and the same scores place by place, so ties can change only which index is returned |

## Left out

- `generate_voiceover`, the cost estimates, the cache keys, and the rest of `ElevenLabsTimedService` (elevenlabs.py:18-170, 228-295, 297-332, 351-444): these are HTTP calls, files, hashing, floating-point cost arithmetic and printing. Only the pure word-timing helper is modelled.
- `ElevenLabs.ExtractWordTimings`: every element of `characters` is one character. The API sends single characters; a multi-character element, which the code would append whole, is not modelled.
- `ElevenLabs.ExtractWordTimings`: the branch `else start_times[i]` of line 195 is not written. A word with content can exist only after a non-separator has been scanned, so `i > 0` always holds there.
- `ElevenLabs.ExtractWordTimings`: the `end_times[-1] if end_times else 0` of line 218 always takes its first branch, because an empty `end_times` returns early. An IndexError from `end_times[i-1]` is modelled. A too-short `start_times` is handled by the code itself (`0` is used).
- `PyStr.Lower`: Python's `str.lower()` is modelled for the ASCII letters only. The non-ASCII case mappings are not modelled: non-ASCII upper-case letters are kept as they are, and the dotted capital I (U+0130), which Python lowers to two characters, keeps its length here.
- `Embeddings.ResolvedProvider`: `str.lower()` is modelled for ASCII letters only. The only non-ASCII characters whose Python lower-case form holds an ASCII letter are the Kelvin sign (to `k`) and the dotted capital I (to `i` plus a combining dot). Neither can give a supported provider name, so which providers are accepted does not change. Only the provider quoted in the ValueError message can differ.
- The sentence-transformers and Gemini model calls, their lazy loading, the `ImportError` raised when sentence-transformers is missing, and the `ValueError` raised for an empty Gemini response (embeddings.py:57-70, 104-158): these are foreign models and network calls. An embedding is represented by the request that produced it.
- `Embeddings.EmbeddingService.EmbedBatch`: the `batch_size` argument is not modelled, because only the foreign encoder uses it. `_embed_batch_with_gemini`'s per-text loop is modelled as a loop that builds one request per text.
- `genai.configure(api_key=...)` (embeddings.py:92) is a foreign call; its effect is modelled as the stored `GeminiClient` carrying the key.
- `_normalize_vector`, the zero-norm replacement, `cosine_similarity` and the dot products of `find_most_similar` (embeddings.py:96-102, 124-127, 193-208, 227-231): floating-point numerics. The top-k selection is modelled over integer similarity scores that are already computed.
- `Embeddings.FindMostSimilar`: `top_k` is a natural number, so the slicing of a negative `top_k` is not modelled. The order among equal scores is left open, as `argsort` leaves it. The `ValueError` numpy raises from `np.dot` on an empty list of embeddings is not modelled; the model returns no pairs for no scores.
- `backend/modal/services/tts/__init__.py`: a re-export with no logic.
