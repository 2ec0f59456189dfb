# You2downloader bot core, modelled in Dafny

This project models the logic of a Telegram bot that downloads a YouTube video or its
audio track and sends the file back to the chat. Almost all of the bot is calls into
Telegram, yt-dlp and mutagen. What is left, and modelled here, is:

- the conversation handlers (`start`, `get_url`, `choose_format`, `cancel`):
  states `GET_URL` and `CHOOSE_FORMAT` plus the framework's `END`; URL cleaning at the
  first `&`; checking the format label; starting a download; classifying its error;
- the progress throttle: a process-wide table from chat id to the time of that chat's
  last progress edit, updated by `progress_hook`;
- the derivation of the MP3 and thumbnail paths from the extractor's file name with
  chained `str.replace` calls;
- the control skeletons of `download_video` and `download_audio`: the missing-MP3
  error, tagging, sending, the success text chosen by the tagging result, the single
  retry after a "Timed out" error, and cleanup in `finally`;
- `add_thumbnail_to_audio` (its guards, its result and the thumbnail removal) and
  `clean_files` (best-effort removal that never raises) over a model of the disk.

Files and modules:

- `wrappers.dfy` (`Wrappers`): `Option`, for Python's `None`.
- `strings.dfy` (`Strings`): `split(sep)[0]` as `BeforeFirst`, `str.replace` as
  `Replace` (every non-overlapping occurrence, left to right), substring search.
- `file_store.dfy` (`FileStore`): class `FileSystem`: the set of existing paths and a
  fixed map from the paths whose `os.remove` raises to the error's text.
- `media_processor.py` → `media_processor.dfy` (`MediaProcessor`).
- `youtube_downloader.py` → `youtube_downloader.dfy` (`YoutubeDownloader`).
- `telegram_interface.py` → `telegram_interface.dfy` (`TelegramInterface`).

Foreign steps are inputs. The extractor is an `Extraction` value: the files it wrote,
and either the name `prepare_filename` returned or the text of the exception it
raised. The mutagen step is a flag `mutagenOk`. Each audio or video send is an
`Attempt` (delivered, or failed with an error text). The time is a `real` parameter
`now`. For `choose_format`, the way the started download ended is an `Outcome`
(returned, or raised with a message). The sends a download makes are returned as a
list of `Outgoing` values, with their timeouts (60, and 90 for the retry).

The conversation has two states, `GET_URL` and `CHOOSE_FORMAT`, and no quality-selection
step. A received URL is cut at its first `&`.

Behaviour of the code that the contracts make visible:

- `download_audio` raises `FileNotFoundError` when the MP3 is missing, and the error
  text contains the MP3 path. If that path contains "Timed out", the except clause
  treats the error as a send timeout. No MP3 exists to retry with, so the error is
  swallowed. `DownloadAudio` states this exactly.
- A file name with none of `.webm`, `.mp4` or `.mp3` is used unchanged as both the
  "MP3" path and the thumbnail path (`DerivedPathsOfOtherName`). If the tagger then
  succeeds, removing the "thumbnail" removes the audio file itself, and the send fails
  with `FileNotFoundError`. `DownloadAudio` covers that case.
- A title that itself contains `.mp4` or `.webm` is rewritten too: no `.webm` or `.mp4`
  is left anywhere in the MP3 path (`Mp3Path`); "a.mp4.webm" becomes "a.mp3.mp3".
- A progress dictionary whose `downloaded_bytes` holds `None` makes the percentage
  division raise a TypeError, which the hook catches: no edit is sent and the
  throttle table is unchanged (`AfterHook`).

## Model

| member | source | states |
|---|---|---|
| `Strings.BeforeFirst` | telegram_interface.py:41 | The result of `split(sep)[0]` is a prefix of the text and contains no separator. If it is shorter than the text, the next character is the separator. If the text has no separator, the result is the whole text. |
| `Strings.ReplaceKeepsStem` | youtube_downloader.py:139-140 | If no occurrence of the pattern starts inside `stem`, then `replace` copies `stem` unchanged and only rewrites the tail. |
| `Strings.Replace` | youtube_downloader.py:139-140 | Python's `str.replace`, scanning left to right and replacing every non-overlapping occurrence. Replacing a pattern by itself changes nothing. A replacement as long as the pattern, such as `.mp4` to `.mp3`, keeps the length of the text. |
| `Strings.ReplaceAbsent` | youtube_downloader.py:139-140 | For every text: when the pattern does not occur in it, `replace` returns it unchanged. |
| `Strings.ReplaceAvoids` | youtube_downloader.py:139-140 | For every text: after replacing, no occurrence of an extension `q` is left, when `q` is the replaced pattern itself or was absent before, and the replacement starts with the same dot as `q` but differs from it after the dot. So no replacement can form a `q` with the text around it. |
| `Strings.ReplaceAfterStem` | youtube_downloader.py:139-140 | Same as `ReplaceKeepsStem`, when the pattern and the tail are extension-shaped (a dot, then no dot) and the stem does not contain the pattern. |
| `TelegramInterface.CleanUrl` | telegram_interface.py:38-42 | The stored URL contains no `&` and is a prefix of the text. If the text contains `&`, the URL stops exactly at the first `&`. Otherwise the URL is the text unchanged. |
| `TelegramInterface.CleanUrlIdempotent` | telegram_interface.py:40-41 | Cleaning an already-cleaned URL leaves it unchanged. |
| `TelegramInterface.Session.Start` | telegram_interface.py:23-34 | Returns `GET_URL` whatever the session holds. Appends the instructions and nothing else. |
| `TelegramInterface.Session.ReceiveUrl` | telegram_interface.py:37-49 | Stores `Some(CleanUrl(text))` as the URL, sends the format menu and returns `CHOOSE_FORMAT`. |
| `TelegramInterface.Session.ReceiveFormat` | telegram_interface.py:52-83 | No stored URL, or an empty one: returns `GET_URL` with no download and no progress message. Otherwise the progress message is sent and stored first. An unknown label then gets the invalid-option reply and `CHOOSE_FORMAT`, with no download. A known label starts the matching download with the stored URL. The state is then `GET_URL` whether the download returned or raised. A returned download gets only the "send another URL" reply. A raised error is never propagated: it gets the send-error reply when its text contains "Timed out", and otherwise the download-error reply for the chosen kind, before the "send another URL" reply. The URL is never changed. |
| `TelegramInterface.Session.Cancel` | telegram_interface.py:86-88 | Returns `END` and sends the cancellation message. |
| `YoutubeDownloader.Total` | youtube_downloader.py:22 | A nonzero `total_bytes` wins over the estimate. A nonzero total is one of the two reported numbers. No total can be read exactly when `total_bytes` is falsy and the estimate holds `None`; comparing that `None` with 0 raises. |
| `YoutubeDownloader.Emits` | youtube_downloader.py:19-34 | Only a `downloading` sample with a positive total and a readable downloaded count sends a progress edit. A count holding `None` never does: the division raises. An edit comes at least 3 seconds after the chat's recorded one. A chat without an entry gets its first measurable sample shown at once. |
| `YoutubeDownloader.AfterHook` | youtube_downloader.py:19-64 | Entries of other chats are never touched. An emitted edit sets the chat's entry to `now`. `finished` removes the chat's entry. When no edit is emitted and the status is not `finished`, the table is unchanged. A `downloading` sample with no positive total, or whose downloaded count holds `None`, changes nothing: the TypeError is caught before the table is written. |
| `YoutubeDownloader.ProgressThrottle.ProgressHook` | youtube_downloader.py:18-77 | The table after the call is `AfterHook` of the table before. A progress edit is sent exactly when `Emits` holds, and it carries the downloaded count (0 when missing) and the total. The completion edit is sent exactly on `finished`. |
| `YoutubeDownloader.ProgressThrottle.constructor` | youtube_downloader.py:13 | The table starts empty. |
| `YoutubeDownloader.EditsAreSpaced` | youtube_downloader.py:15-34 | Take any interleaving of hook calls from all chats in which one chat's download does not finish. That chat's progress edits are then at least 3 seconds apart, and the first one is at least 3 seconds after its recorded entry. |
| `YoutubeDownloader.FinishedForgetsChat` | youtube_downloader.py:60-64 | After `finished`, the chat's next `downloading` call with a positive total emits at once. |
| `YoutubeDownloader.DerivedPathsOfExtension` | youtube_downloader.py:138-140 | Take a name `stem + ".webm"` or `stem + ".mp4"` whose stem contains neither extension. The MP3 path is `stem + ".mp3"`. If the stem also contains no `.mp3`, the thumbnail path is `stem + ".webp"`. |
| `YoutubeDownloader.DerivedPathsOfOtherName` | youtube_downloader.py:139-140 | A name without `.webm`, `.mp4` or `.mp3` is its own MP3 path and its own thumbnail path. |
| `YoutubeDownloader.Mp3Path` | youtube_downloader.py:139 | For every file name, the MP3 path contains no `.webm` and no `.mp4`, wherever they stood in the name. |
| `YoutubeDownloader.ThumbnailPath` | youtube_downloader.py:140 | For every MP3 path, the thumbnail path contains no `.mp3`. |
| `YoutubeDownloader.ThumbnailPathExample` | youtube_downloader.py:140 | An example: "a.mp3.mp3" gives the thumbnail path "a.webp.webp". |
| `YoutubeDownloader.DownloadVideo` | youtube_downloader.py:80-110 | An extraction error propagates and nothing is sent. A missing file raises `FileNotFoundError`. Otherwise the video is sent once with timeout 60, and the success text follows only a delivered send. The `finally` clause removes the primary file. If that removal raises, its error replaces the outcome. All other files stay. |
| `YoutubeDownloader.DownloadAudio` | youtube_downloader.py:113-184 | On every path, the disk ends as `clean_files` leaves it for the file, MP3 and thumbnail paths. An extraction error, or the error for a missing MP3, sends nothing. It is swallowed when its text contains "Timed out" and raised unchanged otherwise. The same holds for the `FileNotFoundError` when tagging removed the MP3 itself, which happens when the thumbnail path equals the MP3 path. Otherwise the MP3 is sent with timeout 60, whether or not tagging worked. A delivered send is followed by the success text if tagging returned True, or the "no cover" text if it returned False. A send error without "Timed out" is re-raised. A send error with "Timed out" gets exactly one retry with timeout 90. A failing retry raises its own error. |
| `Strings.ReprQuote` | youtube_downloader.py:97 | Python's `repr` quote: always `'` or `"`; the chosen quote occurs in the text only when it is `'` and the text also holds `"`. |
| `Strings.Escape` | youtube_downloader.py:97 | The body of `repr`: a text of plain characters (no backslash, no quote, no ASCII control character) is written as it is, and escaping never shortens. |
| `Strings.Repr` | youtube_downloader.py:97 | `repr(s)` starts and ends with `ReprQuote(s)`. A text of plain characters is written as it is between the two quotes. |
| `Strings.ReprRoundTrip` | youtube_downloader.py:97 | For every text, reading the characters between the quotes of `repr(s)` back as a Python string literal gives `s`. |
| `FileStore.QuotedName` | youtube_downloader.py:147 | The `FileNotFoundError` text names a path without double quotes, backslashes or control characters between double quotes when it holds an apostrophe, such as `Don't Stop.mp4`, and between single quotes otherwise. |
| `MediaProcessor.AddThumbnailToAudio` | media_processor.py:10-63 | Returns True exactly when both files exist, the mutagen step completes and the thumbnail's removal succeeds. On True, only the thumbnail is removed, and the MP3 is kept when it is a different path. On False, the disk is unchanged. It never raises. |
| `MediaProcessor.AfterClean` | media_processor.py:66-79 | The path-by-path loop leaves the old file set minus the listed paths that are not `None`, not empty and not failing. A failure does not stop the loop, and unlisted paths are untouched. |
| `MediaProcessor.CleanFilesIdempotent` | media_processor.py:73-76 | Cleaning a list twice leaves the same disk as cleaning it once. |
| `MediaProcessor.CleanFiles` | media_processor.py:66-79 | The loop leaves exactly `AfterClean` of the old disk, and never raises. |

## Left out

- Telegram calls (keyboards, message editing, `ConversationHandler` and its filters,
  `setup_bot`): transport and framework wiring. Text replies are assumed to succeed.
  The handlers' replies are symbols, not their Spanish texts.
- TelegramInterface.Session.ReceiveFormat: an exception raised by a text reply
  inside the `try` of `choose_format` is not modelled. Sending "Iniciando descarga..."
  or the invalid-option text never fails here.
- YoutubeDownloader.DownloadAudio: the text replies after a send are assumed to
  succeed, and so is `open` of an existing file.
- YoutubeDownloader.DownloadVideo: the text reply after the send is assumed to
  succeed, and so is `open` of an existing file.
- yt-dlp: extraction, its option dictionaries and the file name template are foreign
  code. An `Extraction` stands for them. Progress hook calls made during an extraction
  are modelled on their own, by `ProgressThrottle`, and not inside the downloaders.
- mutagen's ID3/APIC writing is foreign code. It is reduced to the flag `mutagenOk`.
  File contents (the tags) are not modelled, only whether a path exists.
- The percentage, the MB/s speed and their `:.1f` formatting are floating point.
  A progress edit only carries the downloaded and total byte counts.
- YoutubeDownloader.Total: the byte counts are taken as integers, although yt-dlp may
  report the estimate, and for fragmented downloads the downloaded count, as floats.
  Whether an edit is sent depends only on the sign of the total and on whether the
  entries are missing, `None` or zero, so no decision is lost.
- FileStore.NoSuchFileMessage: `repr` also escapes non-printable characters beyond
  code point 127 (such as U+0085) as `\x..`, `\u....` or `\U........`. The model
  copies every character from code point 128 up as it is, so the error text matches
  CPython's for names without such characters.
- The asyncio loop check (`loop.is_running()`) and `create_task`: scheduling. An edit
  is "emitted" when the hook schedules it.
- Logging throughout; `app.py` (startup, token check, polling); `config.py` (constants
  and environment reads).
- Concurrency between chats is not modelled. Two jobs racing on the same file name is
  outside the model.
