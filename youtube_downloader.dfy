/**
 * `youtube_downloader.py`: the progress-notification throttle, the derivation of
 * the MP3 and thumbnail paths from the extractor's file name, and the control
 * skeletons of `download_video` and `download_audio`.
 *
 * The extractor, the tagger and the outgoing sends are foreign code. Each is an
 * input here: an `Extraction` says what the extractor did, `mutagenOk` whether
 * the tagger's ID3 step completed, and an `Attempt` how one send ended.
 */
module YoutubeDownloader {
  import opened Wrappers
  import opened Strings
  import opened FileStore
  import opened MediaProcessor

  // ---------------------------------------------------------------------------
  // Progress throttle
  // ---------------------------------------------------------------------------

  type ChatId = int

  /** Minimum number of seconds between two progress edits in one chat. */
  const UPDATE_INTERVAL: real := 3.0

  /** The `'status'` entry of a progress dictionary: `"downloading"`, `"finished"` or any other text. */
  datatype Status = Downloading | Finished | OtherStatus

  /** A numeric entry of a progress dictionary: a missing key, a key holding `None`, or a number. */
  datatype Entry = Missing | NoneValue | Number(value: int) {
    /** Python's truthiness of the entry's value: a nonzero number. */
    predicate Truthy() {
      Number? && value != 0
    }
  }

  /** One progress dictionary. */
  datatype ProgressSample = ProgressSample(
    status: Status,
    totalBytes: Entry,
    totalBytesEstimate: Entry,
    downloadedBytes: Entry)

  /**
   * The hook's total byte count: `total_bytes` when it holds a nonzero number,
   * otherwise `total_bytes_estimate`, which defaults to 0 when missing. `None`
   * stands for an estimate that holds `None`, for which comparing it with 0
   * raises a TypeError.
   */
  function Total(sample: ProgressSample): (t: Option<int>)
    // a nonzero reported total wins over the estimate
    ensures sample.totalBytes.Truthy() ==> t == Some(sample.totalBytes.value)
    // a nonzero total is one of the two reported numbers
    ensures t.Some? && t.value != 0 ==>
      sample.totalBytes == Number(t.value) || sample.totalBytesEstimate == Number(t.value)
    // no total can be read only when the estimate is consulted and holds `None`
    ensures t == None <==> !sample.totalBytes.Truthy() && sample.totalBytesEstimate == NoneValue
  {
    if sample.totalBytes.Truthy() then Some(sample.totalBytes.value)
    else match sample.totalBytesEstimate
      case Missing => Some(0)
      case NoneValue => None
      case Number(n) => Some(n)
  }

  /**
   * The hook can compute a percentage without raising: the total is a positive
   * number and the downloaded count is either missing (read as 0) or a number.
   * A `None` count makes the division raise a TypeError, which the hook catches.
   */
  predicate Measurable(sample: ProgressSample) {
    Total(sample).Some? && Total(sample).value > 0 && !sample.downloadedBytes.NoneValue?
  }

  /** The message edit the hook schedules. */
  datatype Edit = NoEdit | ProgressEdit(downloaded: int, total: int) | CompletedEdit

  /** Whether a hook call for `chat` at time `now` sends a progress edit. */
  predicate Emits(table: map<ChatId, real>, sample: ProgressSample, chat: ChatId, now: real)
    // only a downloading sample whose counts can be read emits
    ensures Emits(table, sample, chat, now) ==>
      sample.status == Downloading && sample.downloadedBytes != NoneValue
      && Total(sample).Some? && Total(sample).value > 0
    // an emitted edit comes at least the interval after the chat's last one
    ensures Emits(table, sample, chat, now) && chat in table ==> now >= table[chat] + UPDATE_INTERVAL
    // a chat without an entry gets its first measurable sample shown at once
    ensures sample.status == Downloading && Measurable(sample) && chat !in table ==> Emits(table, sample, chat, now)
  {
    && sample.status == Downloading
    && Measurable(sample)
    && (chat !in table || now - table[chat] >= UPDATE_INTERVAL)
  }

  /** The throttle table after one hook call for `chat` at time `now`. */
  function AfterHook(table: map<ChatId, real>, sample: ProgressSample, chat: ChatId, now: real)
    : (r: map<ChatId, real>)
    // other conversations' entries are untouched
    ensures forall c :: c != chat ==> (c in r <==> c in table) && (c in r ==> r[c] == table[c])
    ensures Emits(table, sample, chat, now) ==> chat in r && r[chat] == now
    ensures sample.status == Finished ==> chat !in r
    ensures !Emits(table, sample, chat, now) && sample.status != Finished ==> r == table
    // a sample whose counts cannot be read, or whose total is not positive, changes nothing
    ensures sample.status == Downloading && !Measurable(sample) ==> r == table
  {
    if Emits(table, sample, chat, now) then table[chat := now]
    else if sample.status == Finished then table - {chat}
    else table
  }

  /** The process-wide `_last_progress_updates` dictionary and `progress_hook`. */
  class ProgressThrottle {
    var lastUpdates: map<ChatId, real>

    constructor ()
      ensures lastUpdates == map[]
    {
      lastUpdates := map[];
    }

    /**
     * `progress_hook(d, update, context)` for the chat `chatId`, with `time.time()`
     * passed in as `now`. Failures of the edit itself are caught and only logged.
     */
    method ProgressHook(sample: ProgressSample, chatId: ChatId, now: real) returns (edit: Edit)
      modifies this
      ensures lastUpdates == AfterHook(old(lastUpdates), sample, chatId, now)
      ensures edit.ProgressEdit? <==> Emits(old(lastUpdates), sample, chatId, now)
      ensures edit.ProgressEdit? ==>
        edit == ProgressEdit(if sample.downloadedBytes.Number? then sample.downloadedBytes.value else 0, Total(sample).value)
      ensures edit == CompletedEdit <==> sample.status == Finished
    {
      edit := NoEdit;
      if sample.status == Downloading {
        // a TypeError raised in this block is caught and only logged
        var total := Total(sample);
        var downloaded := sample.downloadedBytes;
        if total.Some? && total.value > 0 && !downloaded.NoneValue? {
          if chatId !in lastUpdates || now - lastUpdates[chatId] >= UPDATE_INTERVAL {
            lastUpdates := lastUpdates[chatId := now];
            edit := ProgressEdit(if downloaded.Number? then downloaded.value else 0, total.value);
          }
        }
      } else if sample.status == Finished {
        if chatId in lastUpdates {
          lastUpdates := lastUpdates - {chatId};
        }
        edit := CompletedEdit;
      }
    }
  }

  /** One call of the hook: which chat, what sample, at what time. */
  datatype Tick = Tick(chat: ChatId, sample: ProgressSample, now: real)

  /** The times at which `chat` gets a progress edit over a run of hook calls of all chats. */
  function EditTimes(table: map<ChatId, real>, chat: ChatId, ticks: seq<Tick>): seq<real>
    decreases |ticks|
  {
    if ticks == [] then []
    else
      var t := ticks[0];
      var rest := EditTimes(AfterHook(table, t.sample, t.chat, t.now), chat, ticks[1..]);
      if t.chat == chat && Emits(table, t.sample, chat, t.now) then [t.now] + rest else rest
  }

  /**
   * While a chat's download has not finished, its progress edits are at least
   * `UPDATE_INTERVAL` seconds apart, whatever the other chats do meanwhile, and
   * the first comes at least `UPDATE_INTERVAL` after the one already recorded.
   */
  lemma {:induction false} EditsAreSpaced(table: map<ChatId, real>, chat: ChatId, ticks: seq<Tick>)
    requires forall i :: 0 <= i < |ticks| && ticks[i].chat == chat ==> ticks[i].sample.status != Finished
    ensures var e := EditTimes(table, chat, ticks);
      && (forall i :: 0 <= i < |e| - 1 ==> e[i + 1] - e[i] >= UPDATE_INTERVAL)
      && (chat in table && |e| > 0 ==> e[0] - table[chat] >= UPDATE_INTERVAL)
    decreases |ticks|
  {
    if ticks != [] {
      var t := ticks[0];
      var next := AfterHook(table, t.sample, t.chat, t.now);
      forall i | 0 <= i < |ticks[1..]| && ticks[1..][i].chat == chat
        ensures ticks[1..][i].sample.status != Finished
      {
        assert ticks[1..][i] == ticks[i + 1];
      }
      EditsAreSpaced(next, chat, ticks[1..]);
    }
  }

  /** Once a chat's download has finished, the next one starts with an immediate edit. */
  lemma FinishedForgetsChat(table: map<ChatId, real>, chat: ChatId, finished: ProgressSample,
                            sample: ProgressSample, t0: real, t1: real)
    requires finished.status == Finished
    requires sample.status == Downloading && Measurable(sample)
    ensures Emits(AfterHook(table, finished, chat, t0), sample, chat, t1)
  {
  }

  // ---------------------------------------------------------------------------
  // Output paths
  // ---------------------------------------------------------------------------

  /** The MP3 path: every `.webm`, then every `.mp4`, of the file name becomes `.mp3`. */
  function Mp3Path(filePath: string): (mp3: string)
    // no video extension survives, wherever it stood in the name
    ensures !Contains(mp3, ".webm") && !Contains(mp3, ".mp4")
  {
    var noWebm := Replace(filePath, ".webm", ".mp3");
    assert ".mp3"[1] != ".webm"[1] && ".mp3"[3] != ".mp4"[3];
    ReplaceAvoids(filePath, ".webm", ".mp3", ".webm");
    ReplaceAvoids(noWebm, ".mp4", ".mp3", ".webm");
    ReplaceAvoids(noWebm, ".mp4", ".mp3", ".mp4");
    Replace(noWebm, ".mp4", ".mp3")
  }

  /** The thumbnail path: every `.mp3` of the MP3 path becomes `.webp`. */
  function ThumbnailPath(mp3Path: string): (thumbnail: string)
    // no `.mp3` survives, wherever it stood in the name
    ensures !Contains(thumbnail, ".mp3")
  {
    assert ".webp"[1] != ".mp3"[1];
    ReplaceAvoids(mp3Path, ".mp3", ".webp", ".mp3");
    Replace(mp3Path, ".mp3", ".webp")
  }

  /**
   * A name whose only `.webm` or `.mp4` is its final extension keeps its stem:
   * the MP3 is the stem plus `.mp3`, and, when the stem has no `.mp3` either,
   * the thumbnail is the stem plus `.webp`.
   */
  lemma DerivedPathsOfExtension(stem: string, ext: string)
    requires ext == ".webm" || ext == ".mp4"
    requires !Contains(stem, ".webm") && !Contains(stem, ".mp4")
    ensures Mp3Path(stem + ext) == stem + ".mp3"
    ensures !Contains(stem, ".mp3") ==> ThumbnailPath(Mp3Path(stem + ext)) == stem + ".webp"
  {
    ReplaceAfterStem(stem, ext, ".webm", ".mp3");
    var first := Replace(ext, ".webm", ".mp3");
    if ext == ".webm" {
      assert first == ".mp3";
    } else {
      assert first == ".mp4";
    }
    ReplaceAfterStem(stem, first, ".mp4", ".mp3");
    assert Replace(first, ".mp4", ".mp3") == ".mp3";
    if !Contains(stem, ".mp3") {
      ReplaceAfterStem(stem, ".mp3", ".mp3", ".webp");
      assert Replace(".mp3", ".mp3", ".webp") == ".webp";
    }
  }

  /** A name with none of the three extensions is used as it is for both derived paths. */
  lemma DerivedPathsOfOtherName(filePath: string)
    requires !Contains(filePath, ".webm") && !Contains(filePath, ".mp4") && !Contains(filePath, ".mp3")
    ensures Mp3Path(filePath) == filePath
    ensures ThumbnailPath(Mp3Path(filePath)) == filePath
  {
    ReplaceAbsent(filePath, ".webm", ".mp3");
    ReplaceAbsent(filePath, ".mp4", ".mp3");
    ReplaceAbsent(filePath, ".mp3", ".webp");
  }

  /** An example: the thumbnail path of such a name replaces both `.mp3`s. */
  lemma ThumbnailPathExample()
    ensures ThumbnailPath("a.mp3.mp3") == "a.webp.webp"
  {
  }

  // ---------------------------------------------------------------------------
  // Download skeletons
  // ---------------------------------------------------------------------------

  /** How a call of `download_video` or `download_audio` ends. */
  datatype Outcome = Returned | Raised(message: string)

  /**
   * What `extract_info` plus `prepare_filename` did: the files it wrote and either
   * the primary file name or the text of the error it raised.
   */
  datatype Extraction =
    | Extracted(filePath: string, written: set<string>)
    | ExtractionFailed(message: string, written: set<string>)

  /** How one `reply_video`/`reply_audio` call ended. */
  datatype Attempt = Delivered | Failed(message: string)

  /** The fixed texts the downloaders send. */
  datatype BotText = VideoSent | AudioSent | AudioSentWithoutCover | AudioSentOnRetry

  /** One outgoing send, in order; a file send is listed whether or not it succeeded. */
  datatype Outgoing = SendVideo(path: string, timeout: nat) | SendAudio(path: string, timeout: nat) | SendText(text: BotText)

  const TIMED_OUT := "Timed out"
  const SEND_TIMEOUT: nat := 60
  const RETRY_TIMEOUT: nat := 90

  /** The text of the FileNotFoundError raised for a missing MP3. */
  function MissingMp3Message(mp3Path: string): string {
    "El archivo de audio " + mp3Path + " no se generó correctamente"
  }

  /** The list handed to `clean_files` in `download_audio`'s finally clause. */
  function AudioJobPaths(extraction: Extraction): seq<Option<string>> {
    match extraction
    case Extracted(fp, _) => [Some(fp), Some(Mp3Path(fp)), Some(ThumbnailPath(Mp3Path(fp)))]
    case ExtractionFailed(_, _) => [None, None, None]
  }

  /** `download_video(url, update, context)`. */
  method DownloadVideo(fs: FileSystem, extraction: Extraction, send: Attempt)
    returns (outcome: Outcome, sent: seq<Outgoing>)
    requires fs.Valid()
    requires "" !in extraction.written
    modifies fs
    ensures fs.Valid()
    // the finally clause removes the primary file unless that removal fails
    ensures fs.files == old(fs.files) + extraction.written
      - (if extraction.Extracted? && extraction.filePath !in fs.failures then {extraction.filePath} else {})
    ensures extraction.ExtractionFailed? ==> sent == [] && outcome == Raised(extraction.message)
    ensures extraction.Extracted? && extraction.filePath !in old(fs.files) + extraction.written ==>
      sent == [] && outcome == Raised(NoSuchFileMessage(extraction.filePath))
    ensures extraction.Extracted? && extraction.filePath in old(fs.files) + extraction.written ==>
      && sent == [SendVideo(extraction.filePath, SEND_TIMEOUT)] + (if send.Delivered? then [SendText(VideoSent)] else [])
      && outcome == if extraction.filePath in fs.failures then Raised(fs.failures[extraction.filePath])
                    else if send.Failed? then Raised(send.message)
                    else Returned
  {
    var filePath: Option<string> := None;
    var error: Option<string> := None;
    sent := [];
    fs.Write(extraction.written);
    if extraction.ExtractionFailed? {
      error := Some(extraction.message);
    } else {
      filePath := Some(extraction.filePath);
      var readable := fs.Exists(extraction.filePath);
      if !readable {
        error := Some(NoSuchFileMessage(extraction.filePath));
      } else {
        sent := sent + [SendVideo(extraction.filePath, SEND_TIMEOUT)];
        if send.Failed? {
          error := Some(send.message);
        } else {
          sent := sent + [SendText(VideoSent)];
        }
      }
    }
    // finally: an error raised by the removal replaces the one in flight
    if filePath.Some? && filePath.value != "" {
      var present := fs.Exists(filePath.value);
      if present {
        var removeError := fs.Remove(filePath.value);
        if removeError.Some? {
          error := removeError;
        }
      }
    }
    outcome := if error.Some? then Raised(error.value) else Returned;
  }

  /** `download_audio(url, update, context)`. */
  method DownloadAudio(fs: FileSystem, extraction: Extraction, mutagenOk: bool, firstSend: Attempt, retrySend: Attempt)
    returns (outcome: Outcome, sent: seq<Outgoing>)
    requires fs.Valid()
    requires "" !in extraction.written
    modifies fs
    ensures fs.Valid()
    // the finally clause always cleans the three paths, whatever happened before
    ensures fs.files == AfterClean(old(fs.files) + extraction.written, fs.failures, AudioJobPaths(extraction))
    // an extraction error is swallowed exactly when its text contains "Timed out"
    ensures extraction.ExtractionFailed? ==>
      && sent == []
      && (Contains(extraction.message, TIMED_OUT) ==> outcome == Returned)
      && (!Contains(extraction.message, TIMED_OUT) ==> outcome == Raised(extraction.message))
    // no MP3 after extraction: nothing is sent, and the error is swallowed likewise
    ensures extraction.Extracted? && Mp3Path(extraction.filePath) !in old(fs.files) + extraction.written ==>
      var message := MissingMp3Message(Mp3Path(extraction.filePath));
      && sent == []
      && (Contains(message, TIMED_OUT) ==> outcome == Returned)
      && (!Contains(message, TIMED_OUT) ==> outcome == Raised(message))
    ensures extraction.Extracted? ==>
      var mp3 := Mp3Path(extraction.filePath);
      var thumbnail := ThumbnailPath(mp3);
      var tagged := TagSucceeds(old(fs.files) + extraction.written, fs.failures, mp3, thumbnail, mutagenOk);
      mp3 in old(fs.files) + extraction.written ==>
        // the tagger removed the thumbnail, which was the MP3 itself
        && (tagged && mp3 == thumbnail ==>
              && sent == []
              && (Contains(NoSuchFileMessage(mp3), TIMED_OUT) ==> outcome == Returned)
              && (!Contains(NoSuchFileMessage(mp3), TIMED_OUT) ==> outcome == Raised(NoSuchFileMessage(mp3))))
        && (!(tagged && mp3 == thumbnail) ==>
          && |sent| >= 1 && sent[0] == SendAudio(mp3, SEND_TIMEOUT)
          && (firstSend.Delivered? ==>
                sent == [SendAudio(mp3, SEND_TIMEOUT), SendText(if tagged then AudioSent else AudioSentWithoutCover)]
                && outcome == Returned)
          && (firstSend.Failed? && !Contains(firstSend.message, TIMED_OUT) ==>
                sent == [SendAudio(mp3, SEND_TIMEOUT)] && outcome == Raised(firstSend.message))
          // one retry with the longer timeout; its failure is what propagates
          && (firstSend.Failed? && Contains(firstSend.message, TIMED_OUT) ==>
                && sent == [SendAudio(mp3, SEND_TIMEOUT), SendAudio(mp3, RETRY_TIMEOUT)]
                          + (if retrySend.Delivered? then [SendText(AudioSentOnRetry)] else [])
                && outcome == if retrySend.Delivered? then Returned else Raised(retrySend.message)))
  {
    var filePath: Option<string> := None;
    var mp3Path: Option<string> := None;
    var thumbnailPath: Option<string> := None;
    var error: Option<string> := None;
    sent := [];
    fs.Write(extraction.written);
    if extraction.ExtractionFailed? {
      error := Some(extraction.message);
    } else {
      var mp3 := Mp3Path(extraction.filePath);
      var thumbnail := ThumbnailPath(mp3);
      filePath, mp3Path, thumbnailPath := Some(extraction.filePath), Some(mp3), Some(thumbnail);
      var mp3Exists := fs.Exists(mp3);
      if mp3Exists {
        var tagged := AddThumbnailToAudio(fs, mp3, thumbnail, mutagenOk);
        var readable := fs.Exists(mp3);
        if !readable {
          error := Some(NoSuchFileMessage(mp3));
        } else {
          sent := sent + [SendAudio(mp3, SEND_TIMEOUT)];
          if firstSend.Failed? {
            error := Some(firstSend.message);
          } else {
            sent := sent + [SendText(if tagged then AudioSent else AudioSentWithoutCover)];
          }
        }
      } else {
        error := Some(MissingMp3Message(mp3));
      }
    }
    // except Exception
    outcome := Returned;
    if error.Some? {
      if Contains(error.value, TIMED_OUT) {
        var retry := false;
        if mp3Path.Some? && mp3Path.value != "" {
          retry := fs.Exists(mp3Path.value);
        }
        if retry {
          sent := sent + [SendAudio(mp3Path.value, RETRY_TIMEOUT)];
          if retrySend.Failed? {
            outcome := Raised(retrySend.message);
          } else {
            sent := sent + [SendText(AudioSentOnRetry)];
          }
        }
      } else {
        outcome := Raised(error.value);
      }
    }
    // finally
    CleanFiles(fs, [filePath, mp3Path, thumbnailPath]);
  }
}
