# yt-dlp wrapper scripts, modelled in Dafny

This project models the deterministic core of two interactive yt-dlp front
ends and proves properties of that model.

- `playlist.py` downloads a whole playlist in parallel. The model covers:
  - the folder-name sanitizer;
  - the quality-text parser that turns `max`, `1080p`, `4k` or `custom:900`
    into a format selector;
  - the worklist built from a flat playlist probe;
  - the `{index:03d}` file-name prefix;
  - the worker and fragment count prompts;
  - the aggregation of download outcomes into the final report.
- `yt_dl_menu.py` downloads one video or playlist after a resolution menu.
  The model covers:
  - the standard heights and the two selector builders;
  - the detection of the heights a single video offers;
  - the numbered resolution menus and their input loop;
  - the choice between the playlist menu and the single-video menu.

Modules, one per file:

- `Wrappers`: `Option` and `Result`.
- `PyText`: the Python string and integer built-ins the scripts rely on.
  These are `str.isspace`, `strip`, `lower`, `int(...)`, `str(int)` and zero
  padding.
- `Selectors`: yt-dlp selector strings in the short spelling of `playlist.py`
  and the long spelling of `yt_dl_menu.py`. `ReadCaps` reads both height
  caps back out of a selector, so that contracts can state what a selector
  means rather than how it is spelt.
- `Sanitizer`, `Quality`, `Worklist`, `Download`, `Settings` and `Aggregate`:
  the parts of `playlist.py` listed above.
- `Heights` and `Menu`: the parts of `yt_dl_menu.py` listed above.

Code that updates state in a loop is modelled as methods with loop
invariants, each proved equal to a specification function:
- the entry loop of `fetch_playlist_index`;
- the `as_completed` loop of `main`;
- the height-collection loop;
- the menu numbering loop;
- the menu input loop.

Everything else is modelled as functions. The properties are proved as
lemmas about those functions.

I/O and calls into yt-dlp become parameters:
- the probe result is a `Probe` value, or a list of `Format` records;
- the typed lines are strings, or a sequence of strings;
- a download's exception text is an `Option<string>`;
- the order in which the thread pool completes its futures is a permutation
  of the task positions.

Where the code and its documentation differ, the model follows the code,
with two exceptions, both recorded under "## Findings":
- `Aggregate.AggregateOutcomes` reports a failure with the URL of the task that
  failed, not with the URL `tasks[idx-1][1]` that line 211 of `playlist.py` looks up.
  `Aggregate.FailedUrlAsWritten` models that lookup as written.
- `Menu.Answer`, `Menu.Dialogue` and `Menu.AskResolutionMenu` accept a custom cap
  through `Menu.CapReply`, which takes ASCII digit runs only. The code's `isdigit`
  test followed by `int` is modelled as written by `Menu.CapAsWritten`.

## Model

| member | source | states |
|---|---|---|
| Sanitizer.SanitizeFolderName | playlist.py:30-33 | models `sanitize_folder_name`: runs of illegal characters become one space, the text is stripped, whitespace runs become one space, and an empty result becomes "playlist"; its contract is stated by `Sanitizer.SanitizeIsClean`, `Sanitizer.SanitizeIdempotent`, `Sanitizer.SanitizeKeepsText` and `Sanitizer.SanitizeFallback` |
| Sanitizer.SubRunsFrom | playlist.py:31-32 | after a `re.sub(class+, " ")` pass every character is a space or outside the class, and a first or last character outside the class stays in place |
| Sanitizer.SanitizeIsClean | playlist.py:30-33 | a sanitized name is never empty, has none of `\ / : * ? " < >` and no vertical bar, has no whitespace at either end, and every whitespace character is a single `' '` |
| Sanitizer.SanitizeClean | playlist.py:30-33 | a name that is already clean is returned unchanged |
| Sanitizer.SanitizeIdempotent | playlist.py:30-33 | sanitizing a sanitized name changes nothing |
| Sanitizer.SanitizeKeepsText | playlist.py:31-33 | every character that is neither illegal nor whitespace survives, in the same order |
| Sanitizer.SanitizeFallback | playlist.py:31-33 | a name made only of illegal and whitespace characters becomes "playlist" |
| Sanitizer.SubRunsKept | playlist.py:31-32 | each substitution pass keeps the sequence of untouched characters |
| Sanitizer.SubRunsSpaceSingle | playlist.py:32 | after collapsing `\s+` no two whitespace characters are adjacent |
| Sanitizer.SubRunsTidy | playlist.py:31-32 | a pass leaves alone text whose class characters are lone spaces |
| PyText.Strip | playlist.py:48 | `strip()` is empty exactly for all-whitespace text, and otherwise neither end of it is whitespace |
| PyText.StripPadded | playlist.py:40 | whitespace added around an answer does not change its stripped value |
| PyText.StripUnpadded | playlist.py:40 | text with no whitespace at either end is its own `strip()` |
| PyText.StripSplit | playlist.py:31 | a string is its leading whitespace, then its stripped part, then its trailing whitespace |
| PyText.StripLower | playlist.py:48 | stripping and lower-casing commute |
| PyText.LowerIdempotent | playlist.py:48 | lower-casing twice is lower-casing once |
| PyText.NatToString | yt_dl_menu.py:95 | `str(n)` is a digit run whose decimal value is `n`, with no leading zero |
| PyText.NatToStringInjective | yt_dl_menu.py:95 | different numbers have different `str` spellings, so menu keys never collide |
| PyText.NatToStringLength | playlist.py:109 | `str(n)` fits in `k` digits exactly when `n < 10^k` |
| PyText.ParseIntNat | playlist.py:169-171 | `int(str(n)) == n` for `n >= 0` |
| PyText.ParseIntNegative | playlist.py:163-164 | `int("-" + str(n)) == -n` |
| PyText.ParseIntToString | playlist.py:162-164 | `int(str(i)) == i` for every integer, so a default shown in a prompt reads back unchanged |
| PyText.DigitsValueBound | playlist.py:67 | a run of `k` digits has a value below `10^k` |
| Selectors.ReadCapsCapped | playlist.py:64 | both the split-stream branch and the combined fallback of a capped selector are capped at the same height `h` |
| Selectors.ReadCapsBest | playlist.py:51 | the uncapped selector carries no height cap |
| Selectors.CappedInjective | playlist.py:64 | different heights give different selectors, and no capped selector equals the uncapped one |
| Selectors.ReadFilterOf | playlist.py:64 | a `[height<=h]` filter reads back as `h` |
| Selectors.ReadIntOf | playlist.py:64 | the decimal rendering of `h` in the f-string reads back as `h` |
| Quality.MatchCustom | playlist.py:67-69 | models `re.match(r"(custom:)?(\d{3,4})p?$", q)` and `int(m.group(2))`; its contract is stated by `Quality.MatchCustomSound`, `Quality.MatchCustomComplete` and `Quality.MatchCustomBound` |
| Quality.Classify | playlist.py:48-74 | models the order of the tests: the synonyms of "max", then the tier table, then the custom pattern, else unrecognized; its contract is stated by `Quality.ClassifyBound`, `Quality.ClassifyAliases` and `Quality.ClassifyCustom` |
| Quality.ParseQualityToFmt | playlist.py:43-74 | models `parse_quality_to_fmt`: the selector and whether the warning is printed; its contract is stated by `Quality.ParseQualityShape` and the `Quality.ParseQuality…` lemmas below |
| Quality.ParseQualityTiers | playlist.py:54-64 | every key of the tier table, typed as it is, gives the selector capped at that key's height, without a warning |
| Quality.ClassifyUnrecognized | playlist.py:49-74 | a normalised text reads as unrecognized exactly when it is not a synonym of "max", not a key of the tier table and not of the custom shape |
| Quality.ParseQualityShape | playlist.py:43-74 | the result is the uncapped selector exactly when the text is not read as a cap; the warning is printed exactly when the normalised text is none of a synonym of "max", a key of the tier table or a text of the `(custom:)?\d{3,4}p?` shape, and then the selector is the uncapped one; a cap `h` is at most 9999 and both branches are capped at `h` |
| Quality.ParseQualityBest | playlist.py:49-51 | "", "max", "best" and "highest" give the uncapped selector without a warning |
| Quality.ParseQualityPadding | playlist.py:48 | surrounding whitespace does not change the result |
| Quality.ParseQualityCaseInsensitive | playlist.py:48 | letter case does not change the result |
| Quality.ParseQualityAliases | playlist.py:54-64 | "4k" reads as a 2160 cap and "2k" as a 1440 cap |
| Quality.ClassifyAliases | playlist.py:54-63 | the alias keys "4k" and "2k" map to 2160 and 1440 |
| Quality.TiersAgreeWithPattern | playlist.py:54-70 | every key of the tier table except the two aliases gives the same height as the custom pattern would |
| Quality.TiersMatchHigh | playlist.py:55-57 | the pattern reads "2160", "1440" and "1080", with or without `p`, as those heights |
| Quality.TiersMatchLow | playlist.py:58-60 | the pattern reads "720", "480" and "360", with or without `p`, as those heights |
| Quality.MatchCustomComplete | playlist.py:67-69 | every text of the form optional `custom:`, then 3 or 4 digits, then optional `p`, matches with the value of its digits |
| Quality.MatchCustomSound | playlist.py:67-69 | every text the pattern accepts has that form, and the height is the value of its digits |
| Quality.MatchCustomBound | playlist.py:67-69 | a custom height is at most 9999 |
| Quality.ClassifyBound | playlist.py:62-70 | every cap the parser reads is at most 9999 |
| Quality.ClassifyCustom | playlist.py:62-70 | a text of the custom form is read as the cap given by its digits |
| Quality.ParseQualityCustom | playlist.py:66-70 | a custom-form text gives the selector capped at its digits' value, without a warning |
| Worklist.EntryUrl | playlist.py:97-99 | models an entry's `url`, else the watch-page URL built from a truthy `id`, else nothing; its contract is stated by `Worklist.EntryUrlFromId` and `Worklist.TasksSound` |
| Worklist.TasksOf | playlist.py:94-101 | models the tasks the `enumerate(start=1)` loop appends; its contract is stated by `Worklist.TasksNumbered`, `Worklist.TasksSound`, `Worklist.TasksComplete`, `Worklist.TasksContiguous` and `Worklist.TasksEmpty` |
| Worklist.IndexOf | playlist.py:86-104 | models `fetch_playlist_index` after the probe, with its two `RuntimeError`s as failures; its contract is stated by `Worklist.IndexSingle`, `Worklist.IndexFails` and `Worklist.IndexTitleClean` |
| Worklist.BuildTasks | playlist.py:95-101 | the entry loop produces exactly `TasksOf(entries)` |
| Worklist.FetchPlaylistIndex | playlist.py:86-104 | the builder returns or raises exactly what `IndexOf` says |
| Worklist.TasksNumbered | playlist.py:96-101 | there are at most as many tasks as entries, numbered in `1..len(entries)` in strictly increasing order |
| Worklist.TasksSound | playlist.py:96-101 | each task's URL is the URL of the entry its number points at |
| Worklist.TasksComplete | playlist.py:96-101 | every entry with a URL or an id has a task with its number |
| Worklist.TasksContiguous | playlist.py:96-101 | when every entry has a URL or an id, the tasks are numbered `1..n` without gaps |
| Worklist.TasksEmpty | playlist.py:96-103 | there is no task exactly when no entry has a URL or an id |
| Worklist.IndexSingle | playlist.py:90-92 | a probe that is not a playlist gives the single task `(1, webpage_url or url)` |
| Worklist.IndexFails | playlist.py:86-103 | the builder raises exactly when the probe returned nothing, or returned a playlist without a usable entry |
| Worklist.IndexTitleClean | playlist.py:91-94 | the folder title of a built worklist is always a clean name |
| Worklist.EntryUrlFromId | playlist.py:97-99 | an entry with a missing or empty URL but an id is fetched from `https://www.youtube.com/watch?v=<id>` |
| Download.IndexPrefix | playlist.py:108 | models `f"{index:03d}"`; its contract is stated by `Download.IndexPrefixRoundTrip` |
| Download.OutputName | playlist.py:108 | models the file-name part of `outtmpl`: the prefix, then ` - %(title).200B.%(ext)s`; its contract is stated by `Download.OutputNameInjective` |
| Download.DownloadOne | playlist.py:106-133 | models the value `download_one` returns, given whether yt-dlp raised; its contract is stated by `Download.DownloadOneOutcome` |
| Download.IndexPrefixRoundTrip | playlist.py:109 | `{index:03d}` is all digits and reads back as the index; it is exactly 3 characters below 1000, and the plain decimal spelling from 1000 on |
| Download.OutputNameInjective | playlist.py:109 | different task numbers give different output file names |
| Download.PrefixBeforeTemplate | playlist.py:109 | the title template after the prefix cannot hide a difference between two prefixes |
| Download.DownloadOneOutcome | playlist.py:128-133 | the outcome carries the task number, is ok exactly when yt-dlp raised nothing, and otherwise carries the exception text |
| Settings.Prompt | playlist.py:38-41 | models `prompt`'s result: the stripped answer, else the default, else ""; its contract is stated by `Settings.WorkersBlank`, `Settings.FragsBlank` and `Settings.ClampTyped` |
| Settings.DefaultWorkers | playlist.py:158-161 | models `max(4, os.cpu_count() or 4)`; its contract is stated by `Settings.DefaultWorkersBound` |
| Settings.ClampCount | playlist.py:163-173 | models `max(1, int(text))` with the `ValueError` fallback; its contract is stated by `Settings.ClampCountCases` and `Settings.ClampTyped` |
| Settings.Workers | playlist.py:158-166 | models the worker count read from its prompt; its contract is stated by `Settings.CountsPositive` and `Settings.WorkersBlank` |
| Settings.Frags | playlist.py:168-173 | models the fragment count read from its prompt; its contract is stated by `Settings.CountsPositive` and `Settings.FragsBlank` |
| Settings.DefaultWorkersBound | playlist.py:158-161 | the default worker count is the CPU count when that is above 4, and exactly 4 when the count is unknown, zero or at most 4 |
| Settings.ClampCountCases | playlist.py:163-173 | an integer answer `v` is used as `v` when `v >= 1` and as exactly 1 below that, that is `max(1, v)`; anything `int` rejects gives the default |
| Settings.CountsPositive | playlist.py:158-173 | the worker and fragment counts are always at least 1 |
| Settings.ClampTyped | playlist.py:163-164 | typing the integer `i` gives `max(1, i)` |
| Settings.WorkersBlank | playlist.py:159-166 | a blank answer keeps the default worker count |
| Settings.FragsBlank | playlist.py:169-173 | a blank answer keeps 4 fragments |
| Aggregate.OkCount | playlist.py:204-207 | models the successes counted by the `as_completed` loop; its contract is stated by `Aggregate.OkPlusFailed` and `Aggregate.ReportIndependentOfOrder` |
| Aggregate.FailedAt | playlist.py:204-212 | models the failed items collected by the `as_completed` loop, with the corrected URL lookup; its contract is stated by `Aggregate.FailedAtPermutation`, `Aggregate.FailedAtEntries` and `Aggregate.ReportUrlsCorrect` |
| Aggregate.FailedUrlAsWritten | playlist.py:211 | models the lookup `tasks[idx-1][1]` as written, with `None` for the `IndexError`; its contract is stated by `Aggregate.FailedUrlAsWrittenMisreports` and `Aggregate.FailedUrlAsWrittenContiguous` |
| Aggregate.CompletionOrderInRange | playlist.py:198-204 | a completion order visits each of the `n` task positions once |
| Aggregate.AggregateOutcomes | playlist.py:195-212 | the loop counts the ok outcomes; it collects one failed item per failed task, in completion order; and successes plus failures equals the number of tasks |
| Aggregate.OkPlusFailed | playlist.py:204-212 | the successes and the failed items together account for every completed task |
| Aggregate.FailedAtPermutation | playlist.py:204-211 | two completion orders give the same failed items, up to order |
| Aggregate.FailedAtEntries | playlist.py:205-211 | every failed item comes from a task whose download failed |
| Aggregate.SortByIndex | playlist.py:219 | the report is sorted by task number and is a permutation of the failed items |
| Aggregate.InsertSorted | playlist.py:219 | inserting into a sorted report keeps it sorted |
| Aggregate.SortedUnique | playlist.py:219 | a sorted permutation of a strictly sorted list is that list |
| Aggregate.FailedInTaskOrderSorted | playlist.py:211-219 | with outcomes in task order the failed items are strictly sorted by task number |
| Aggregate.ReportIndependentOfOrder | playlist.py:204-220 | the success count and the sorted failure report do not depend on the order in which the downloads finish |
| Aggregate.ReportUrlsCorrect | playlist.py:211 | every reported failed item carries the URL of the task with its number |
| Aggregate.FailedUrlAsWrittenMisreports | playlist.py:211 | the lookup as written reports the wrong URL, or raises `IndexError`, for a playlist whose numbering has a gap |
| Aggregate.FailedUrlAsWrittenContiguous | playlist.py:211 | without gaps in the numbering, the lookup as written finds the right URL |
| Heights.PickFormatForHeight | yt_dl_menu.py:29-34 | models `pick_format_for_height(h)` in the long spelling; its contract is stated by `Heights.PickFormatCaps` and `Heights.PickFormatInjective` |
| Heights.BestFormat | yt_dl_menu.py:36-38 | models `best_format()`; its contract is stated by `Heights.PickFormatCaps` and `Selectors.ReadCapsBest` |
| Heights.PickFormatCaps | yt_dl_menu.py:29-38 | `pick_format_for_height(h)` caps both the split-stream branch and the combined fallback at `h`, and differs from `best_format()` |
| Heights.PickFormatInjective | yt_dl_menu.py:29-34 | different heights give different selectors |
| Heights.InsertDescending | yt_dl_menu.py:49 | inserting a height keeps the list strictly descending and adds exactly that height |
| Heights.SortDescending | yt_dl_menu.py:49 | `sorted(set, reverse=True)` is strictly descending and has exactly the set's elements |
| Heights.DetectSingleVideoHeights | yt_dl_menu.py:40-49 | the result is strictly descending, and holds `h` exactly when some format has a truthy `vcodec` other than "none" and integer height `h` |
| Menu.MenuMapping | yt_dl_menu.py:91-96 | models the `mapping` dictionary the numbering loop builds; its contract is stated by `Menu.MenuMappingValues`, `Menu.MenuMappingKeys` and `Menu.MenuMappingNumbers` |
| Menu.Answer | yt_dl_menu.py:100-111 | models one pass of the input loop over a typed choice; its contract is stated by `Menu.AnswerFixedOptions`, `Menu.AnswerListed`, `Menu.AnswerInvalid` and `Menu.AnswerPadding` |
| Menu.CapReply | yt_dl_menu.py:104-108 | models the custom-cap answer with the corrected digit test; its contract is stated by `Menu.CapReplyCases` |
| Menu.Dialogue | yt_dl_menu.py:99-111 | models the whole input loop over the lines typed; its contract is stated by `Menu.AskResolutionMenu` and the `Menu.Answer…` lemmas |
| Menu.CapAsWritten | yt_dl_menu.py:104-107 | models the custom-cap answer as written, `isdigit` then `int`; its contract is stated by `Menu.CapAsWrittenRaises` and `Menu.CapAsWrittenAgrees` |
| Menu.BuildMenu | yt_dl_menu.py:91-97 | the numbering loop builds `MenuMapping(heights)` and leaves the custom option at `str(len(heights) + 2)` |
| Menu.MenuMappingValues | yt_dl_menu.py:91-96 | key `str(k)` is bound to `heights[k-2]` for every `k` in `2..n+1` |
| Menu.MenuMappingKeys | yt_dl_menu.py:91-96 | every key is the decimal spelling of a number in `2..n+1` |
| Menu.MenuMappingNumbers | yt_dl_menu.py:91-96 | the mapping numbers the heights from 2 and has no other key |
| Menu.AskResolutionMenu | yt_dl_menu.py:83-141 | both menus return exactly the selector `Dialogue` gives for the lines typed |
| Menu.AnswerFixedOptions | yt_dl_menu.py:101-104 | choice "1" gives `best_format()`, and the custom option asks for a cap |
| Menu.AnswerListed | yt_dl_menu.py:109-110 | choice `str(k)` for `2 <= k <= n+1` gives `pick_format_for_height(heights[k-2])` |
| Menu.AnswerInvalid | yt_dl_menu.py:99-111 | any other stripped choice produces no selector and asks again |
| Menu.AnswerPadding | yt_dl_menu.py:100 | whitespace around a choice does not change what it selects |
| Menu.CapReplyCases | yt_dl_menu.py:104-107 | a custom cap is accepted exactly when it is a digit run; it then gives the selector capped at its value, and `int` reads the same value |
| Menu.ParseIntDigits | yt_dl_menu.py:106 | `int` of a digit run is its decimal value |
| Menu.StdHeightsDescending | yt_dl_menu.py:27 | the nine standard heights are strictly descending |
| Menu.PlaylistCustomOption | yt_dl_menu.py:121-127 | the playlist menu's custom option is "11" |
| Menu.PlaylistFirstOption | yt_dl_menu.py:121-126 | option "2" of the playlist menu caps at 4320 |
| Menu.CapAsWrittenRaises | yt_dl_menu.py:104-106 | with `isdigit` as written, the cap "²" passes the test and then makes `int` raise |
| Menu.CapAsWrittenAgrees | yt_dl_menu.py:104-107 | the cap branch as written raises exactly on digit text that is not all decimal digits, and otherwise agrees with `CapReply` |
| Menu.ChooseMenu | yt_dl_menu.py:172-180 | the playlist menu is shown exactly when the probe is playlist-like or no height was detected; otherwise the single-video menu lists the detected heights, strictly descending |
| Menu.SelectFormat | yt_dl_menu.py:172-180 | the selector is what the chosen menu's dialogue gives, and the playlist menu is chosen exactly when the probe has entries or no height was detected |

## Left out

- Network, yt-dlp and the file system are not modelled. This covers `extract_info`, `download`, `mkdir`, the download archive, path joining and `expanduser`/`resolve`, and `shutil.which`. Their results are parameters.
- Console output is not modelled: `print`, `box`, colours, `progress_hook` with its floating-point percentages, and the `ffmpeg` hint.
- `ask_url_and_folder` and `nicer_outtmpl` in yt_dl_menu.py are not modelled. They only read a URL and a folder and format a path template.
- yt-dlp's template expansion of `%(title).200B.%(ext)s` is not modelled. The model treats the template as fixed text after the number.
- Concurrency is not modelled. The thread pool is reduced to the order in which futures complete, which is a permutation of the task positions. Each download's outcome is a parameter.
- `Download.DownloadOne` takes the exception text as a parameter. The model does not see which exception yt-dlp raises or how `str(e)` renders it.
- Lower-casing, `\d` in the quality pattern and `int(...)` are modelled over ASCII letters and digits only. Python also lower-cases non-ASCII letters, such as the Kelvin sign to `k`, and `\d` and `int` also accept other Unicode decimal digits. Whitespace follows Python's full `str.isspace` set.
- PyIsDigit, CapReply and CapAsWrittenAgrees: `str.isdigit` is modelled as the ASCII digits plus `²`, `³` and `¹` only. Python's `isdigit` also accepts other characters. For some of them `int` raises, such as `①`. For others `int` succeeds, such as the Arabic-Indic digits. `Menu.CapAsWritten` does not raise on the first kind. `Menu.CapReply` asks again on the second kind, where the code would accept the cap.
- `int(...)`'s limit of 4300 digits is not modelled: the model reads digit runs of any length.
- `isinstance(h, int)` is also true for `True` and `False`. A format whose height is a boolean is not modelled: heights are `Option<int>`.
- The Python set in `detect_single_video_heights` is modelled as a list without repetition. Only its elements matter, because it is sorted afterwards.
- `sorted(failed_items)` compares whole `(idx, url, msg)` tuples. It is modelled as a sort by task number, which gives the same result because task numbers in the report are distinct.
- The `except Exception` around `os.cpu_count()` is not modelled separately: `cpu_count` returns `None` rather than raising, and `None` is modelled.
- `Menu.AskResolutionMenu` reads its answers from a finite list of lines. Running out of lines, where `input` would raise `EOFError`, is modelled as `None`.
- `KeyboardInterrupt` handling and `sys.exit` are not modelled.

## Findings

| source | as written | input that shows it | evidently intended | confidence | as-written member | corrected member |
|---|---|---|---|---|---|---|
| playlist.py:211 | the failed item's URL is `tasks[idx-1][1]`, which assumes task numbers run `1..n` without gaps | a playlist whose entries are (no URL, no id), `A`, `B` has tasks `(2, A), (3, B)`; a failure of task 2 is reported with `B`, and a failure of task 3 raises `IndexError` out of `main` | report the URL of the task whose download failed | not executed | Aggregate.FailedUrlAsWritten, Aggregate.FailedUrlAsWrittenMisreports | Aggregate.AggregateOutcomes, Aggregate.ReportUrlsCorrect |
| yt_dl_menu.py:105-106 | the custom cap is checked with `str.isdigit`, which also accepts digits such as superscripts that `int` rejects | custom cap `²`: `"²".isdigit()` is true, and `int("²")` raises `ValueError`, which nothing catches (the same code is at yt_dl_menu.py:135-136) | accept only caps `int` can read, and ask again otherwise | not executed | Menu.CapAsWritten, Menu.CapAsWrittenRaises | Menu.CapReply, Menu.CapReplyCases |
