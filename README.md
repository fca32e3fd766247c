# aicalart core, modelled in Dafny

aicalart makes a daily AI-generated calendar image. It turns the day's holidays, silly days
and a news headline into a text prompt, asks a text model for an image prompt, renders
portrait and landscape images, and publishes them. This project models the parts of that
pipeline that are the program's own logic rather than calls into outside services. It then
proves what those parts promise.

- `randomish.dfy` (module `Randomish`) is the non-repeating style rotation selector.
  - A shuffled queue of style bases is kept in a file. Each call pops one base from the
    front, saves the rest, and adds one to three modifier phrases drawn with replacement.
    A missing, unreadable or empty queue is rebuilt from a fresh shuffle of the whole
    catalogue.
  - The selector is a class, `Selector`. Its field `file` is the queue file, modelled as
    absent, unreadable (an OS error or invalid JSON, both caught), undecodable (bytes that
    are not valid text, whose decoding error is not caught and so propagates), or a stored
    list of bases.
  - Every draw of the cryptographic generator is a nondeterministic choice (`:|`). So the
    contracts hold for every possible outcome of the randomness.
  - `RunFullCycle` is a client of the class. It proves exhaustion before repeat: from a
    state with no usable queue, N calls over a catalogue of N distinct bases return every
    base exactly once, each with one to three phrases. `peek_remaining` counts down between
    the calls, and the cycle leaves an empty stored list behind.
- `main_helpers.dfy` (module `MainHelpers`) holds three helpers from `main.py`.
  - Title trimming: `trim_string`.
  - Holiday lookup: `get_holiday`.
  - The English-list rendering of silly days: `get_silly_day`.
  - The holiday and silly-day tables are program constants. They are passed in as maps.
- `generate.dfy` (module `Generate`) holds the decision and string logic of
  `generate.py`:
  - the `today` and `newslist` phrases;
  - the two prompt-cleaning passes;
  - the five-step escalation table used when image generation fails;
  - the `skipped_args` report of `main`;
  - the `full_prompt` format.
- `promote.dfy` (module `Promote`) models `extract_date`. It slices a staged file name
  between the first `-` and the first `T`, with Python's slice semantics.
- `pytext.dfy` (module `PyText`) defines the Python `str` and slice operations the helpers
  are written with, using Python's own semantics:
  - slices clamp their bounds and count negative bounds from the end;
  - `find`/`rfind` return -1 when the character is missing;
  - `replace` rewrites non-overlapping occurrences from the left;
  - `strip`, `join`, `startswith`, `endswith`, `in` and `split(c)[0]` are included too.
- `wrappers.dfy` holds `Option` and `Result`.

Error paths are results, not preconditions. The selector returns `Err(EmptyQueue)` when the
queue and the catalogue are both empty. Loading a queue file that does not decode gives `Err(UndecodableQueue)`, from
`get_random_style` and from `peek_remaining` alike, and nothing is saved. It returns `Err(NoPhrases)` when the phrase list is
empty. Loading a queue file that does not decode gives `Err(UndecodableQueue)`, from
`get_random_style` and from `peek_remaining` alike, and nothing is saved.

Details of the code that the model keeps:
- With no phrases, the error comes after the shortened queue has been saved. `secrets.choice`
  raises only after `_save_queue`, so the base is consumed.
- `trim_string` can return `char_limit + 2` characters, and the contract says so. This
  happens when the last `.` sits at index `char_limit`, because the window is
  `char_limit + 1` long and a `"` is added.
- An `attempt_changes` key outside 1..5 is a `KeyError` in the code. It is modelled as
  `MissingKey`. That happens for a negative incoming `failed_attempts`.
- `locals()` in `main` also holds the timer `t1`, so `MainLocals` lists it too.
- The `write_daily_prompt_json` pass strips `"` and unescapes only `\n`. The
  `generate_images` pass unescapes `\n` and `\"` and does not strip.

## Model

| member | source | states |
|---|---|---|
| Randomish.Shuffle | randomish.py:20-28 | the result is a permutation of the input: same length and same multiset (the caller's list is a value and stays as it was) |
| Randomish.RemoveFirst | randomish.py:26 | `list.remove(x)` drops the first occurrence of x and keeps the other elements in order; so the length is one less and the multiset loses one x |
| Randomish.Selector.LoadQueue | randomish.py:31-41 | a stored, parsed, non-empty list comes back unchanged; an absent, unreadable or empty file yields a permutation of the catalogue; a file that does not decode raises |
| Randomish.Selector.SaveQueue | randomish.py:44-47 | afterwards the file holds exactly the given queue |
| Randomish.Selector.GetRandomStyle | randomish.py:50-72 | a file that does not decode raises and nothing changes; otherwise the base is the front of the loaded queue and the file then holds the rest of it; an empty queue is rebuilt from the catalogue; an empty queue and empty catalogue fail before anything is saved; no phrases fail after the save; otherwise the result is `base + ", " + join(phrases)` with 1 to 3 phrases, each from the phrase list |
| Randomish.Selector.PeekRemaining | randomish.py:75-83 | the stored list's length, or 0 for a missing or unreadable file; a file that does not decode raises; nothing changes |
| Randomish.Selector.ResetQueue | randomish.py:86-89 | afterwards there is no queue file, whether or not one existed |
| Randomish.FormatStyleIsJoin | randomish.py:58-72 | the returned style is `", ".join([base] + phrases)` |
| Randomish.FormatStyle | randomish.py:69-72 | the returned style starts with the base and ", " |
| Randomish.ReshuffledFront | randomish.py:63-66 | a queue rebuilt from a non-empty catalogue has the catalogue's size, and its front is a catalogue entry |
| Randomish.PermutationOfDistinct | randomish.py:1-9 | a shuffle of a duplicate-free catalogue is duplicate-free and has the catalogue's elements |
| Randomish.RunFullCycle | randomish.py:61-83 | from no usable queue, as many calls as there are distinct bases return each base exactly once (distinct, same set as the catalogue), each result is the formatted style of its base with 1 to 3 phrases from the phrase list, the `peek_remaining` results before the second, third, ... call are N-1, N-2, ..., 1, and the file ends as an empty list |
| Randomish.ResetTwiceThenPeek | randomish.py:75-89 | resetting twice leaves no file, and `peek_remaining` then reports 0 |
| MainHelpers.DefaultLimitTitle | main.py:33-43 | with the default limit of 1023 the title is at most 1025 characters, and a cut title ends in `"` |
| MainHelpers.TrimString | main.py:33-43 | text within the limit is returned unchanged; longer text gives a result of 1 to limit+2 characters that ends in `"` and whose body is a prefix of the text |
| MainHelpers.TrimAtLastPeriod | main.py:36-41 | with a `.` in the first limit+1 characters, the result runs up to and including the last such `.`, then `"` |
| MainHelpers.TrimWithoutPeriod | main.py:42-43 | with no `.` in that window, the result is the first limit characters and `"`, limit+1 in all |
| MainHelpers.GetHoliday | main.py:47-48 | the table's entry for the date, or "" when the date is not in the table |
| MainHelpers.Events | main.py:52 | the table's list for a listed date, and the empty list for any other date |
| MainHelpers.GetSillyDay | main.py:51-60 | "" for no events, the event itself for one, "a and b" for two |
| MainHelpers.JoinThenAnd | main.py:60 | all but the last joined by ", ", then " and " and the last, is the English list of the events |
| MainHelpers.SillyDayIsEnglishList | main.py:51-60 | for any non-empty event list the result is its English list ("a", "a and b", "a, b and c", ...) |
| Generate.TodayAndNewslist | generate.py:76-98 | the four holiday/silly-day cases of `today` (both, holiday only, silly day only, neither) and the two news cases of `newslist` |
| Generate.NamedDay | generate.py:79-86 | there is a day name exactly when a holiday or a silly day is truthy; it is non-empty, starts with the holiday and ends with the silly day when they are given |
| Generate.TodayRankedIff | generate.py:79-91 | `today` starts with the date, and it ends with the ranking clause exactly when a holiday or a silly day is present |
| Generate.TodayHeadline | generate.py:271 | `today.split(';')[0]` is the date followed by the day's name when there is one |
| Generate.NewslistIff | generate.py:93-97 | `newslist` is "events and holidays" exactly when the news is empty or None, and otherwise ends with the headline in double quotes |
| Generate.RemoveMarkers | generate.py:238-240 | deleting each marker in turn never lengthens the text, and text holding none of the markers is left as it is |
| Generate.Cleaned | generate.py:389-391 | the metadata cleaning never lengthens the prompt |
| Generate.JsonCleaned | generate.py:234-240 | the JSON cleaning never lengthens the prompt |
| Generate.CleanPrompt | generate.py:389-391 | the loop's result is the unescaped prompt with each marker deleted in turn |
| Generate.CleanForJson | generate.py:234-240 | both orientations are stripped of `"`, unescaped and cleared of each marker in turn |
| Generate.RemoveMarkersLength | generate.py:238-240 | deleting markers changes nothing exactly when no marker occurs |
| Generate.CleanedFixedIff | generate.py:389-391 | the cleaning changes the prompt exactly when it holds an escaped newline, an escaped quote or a marker |
| Generate.CleanedWithoutBackslash | generate.py:389-391 | a prompt with no backslash and no marker comes back unchanged |
| Generate.JsonCleanedFixedIff | generate.py:234-240 | the JSON cleaning changes the prompt exactly when it starts or ends with `"`, holds an escaped newline, or holds a marker |
| Generate.AttemptChanges | generate.py:349-370 | an entry exists exactly for attempts 1 to 5; the news is skipped from attempt 2 on, everything optional from attempt 4 on, and only attempt 5 sets a style, the Bob Ross one |
| Generate.ApplyChanges | generate.py:372-382 | the retried call's skip flags are the current ones plus the forced ones; the style is the entry's when it names one, else the current one; date, model and upload flag are passed on |
| Generate.OnImageFailure | generate.py:345-386 | more than five failures give up; otherwise the rerun has the count plus one, the table entry's skip flags added to the current ones, the Bob Ross style at the fifth failure (the current style before), and the same date, model and upload flag |
| Generate.ForcedSkipsGrow | generate.py:349-366 | each attempt's forced skip flags include the previous attempt's |
| Generate.FiveFailures | generate.py:345-386 | five failures from the first call skip everything optional and switch to the Bob Ross style, and a sixth gives up |
| Generate.MainLocals | generate.py:426-441 | `locals()` holds ten names, and exactly the five flag parameters have the `skip_` prefix |
| Generate.SkippedName | generate.py:442-446 | a pair contributes at most one name, and one exactly when its name starts with `skip_` and its value is truthy |
| Generate.SkippedArgs | generate.py:442-446 | the list has at most one name per local |
| Generate.SkipEntry | generate.py:443-445 | a `skip_` local contributes its name without the prefix exactly when its flag is set |
| Generate.SkipLocalsListed | generate.py:442-446 | five `skip_` locals in a row contribute their set names in order |
| Generate.SkippedArgsExact | generate.py:441-446 | over `main`'s locals, `skipped_args` is exactly the set skip options without the `skip_` prefix, in parameter order |
| Generate.FullPrompt | generate.py:331 | the full prompt opens with the style and ", no margins, full screen. ", ends with the image prompt, and holds nothing else |
| Generate.RetryPromptStyle | generate.py:322-382 | after failure 1 to 4 the rerun's prompt opens with the caller's style, and after failure 5 with the Bob Ross style |
| Promote.ExtractDate | promote.py:24-28 | the result is never longer than the name and never holds a `T` |
| Promote.ExtractDateContiguous | promote.py:24-28 | whatever the name, the result is one contiguous slice of it |
| Promote.ExtractDateBetween | promote.py:25-27 | with a `-` before the first `T`, the result is exactly what lies between the first `-` and the first `T` |
| Promote.ExtractDateOfStagedName | promote.py:24-28 | a name `<kind>-<date>T<time>` gives back `<date>` (kind with no `-` or `T`, date with no `T`) |
| Promote.ExtractDateUsageExample | promote.py:21 | "landscape-2023-12-03T01/50/17.205070Z" gives "2023-12-03" |
| Promote.ExtractDateNoHyphen | promote.py:25-27 | with no `-`, the slice starts at 0 |
| Promote.ExtractDateNoT | promote.py:26-27 | with no `T`, the stop index -1 ends the slice one character before the end |
| Promote.ExtractDateTFirst | promote.py:27 | a first `T` at or before the first `-` gives the empty string |

## Left out

- Network and services are not part of this model: the text and image model calls, moderation, news fetching, Google Calendar, S3 upload and SFTP deployment. They are I/O.
- `logo_maker.py`, `deploy_static.py`, `static/js/site.js` and `process_calendars` are not part of this model.
- Logging, printing, timing (`time.perf_counter`) and `exit` are not modelled. The exit after the fifth retry is `GiveUp`.
- The queue file's path and its JSON encoding are not modelled. The file is one field that holds "absent", "unreadable", "undecodable" or a list of strings.
- A JSON document that parses to something other than a list is not modelled. For example, a number makes `deque(data)` raise `TypeError`, and a dict is iterated by its keys.
- A failure while writing the queue file is not modelled. Neither is a change to the file by another process between calls.
- Randomish.Shuffle: the uniform distribution of `secrets.choice` and `secrets.randbelow` is not modelled, only the set of possible outcomes.
- PyText.Replace: requires a non-empty pattern. Every call site passes a non-empty constant, and Python's empty-pattern behaviour is not needed.
- MainHelpers.TrimAtLastPeriod and MainHelpers.TrimWithoutPeriod assume a limit of at least 0. `TrimString` itself covers negative limits through the slice model, but no lemma is stated for them.
- Generate.TodayHeadline assumes that no part holds a `;`. A holiday name holding `;` would cut the headline short, as the code would.
- Generate.OnImageFailure starts from the failure. Whether a request fails is a parameter of the model, not something it decides.
- The style catalogue is assumed to stay fixed while a cycle is in progress. A stored queue holding bases that were since removed from the catalogue is replayed as stored, exactly as the code does.
- Promote.ExtractDateUsageExample: the example name is written as a concatenation of its pieces. It is the same string.
