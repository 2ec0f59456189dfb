/**
 * `telegram_interface.py`: the per-message handlers of the conversation. Each
 * handler reads and writes one chat's `context.user_data`, sends its replies and
 * returns the conversation's next state. The outcome of the download that
 * `choose_format` starts is an input: how `download_video`/`download_audio` ended.
 */
module TelegramInterface {
  import opened Wrappers
  import opened Strings
  import opened YoutubeDownloader

  /** The two states the handlers return, `GET_URL` and `CHOOSE_FORMAT`, and the framework's end state. */
  datatype ConvState = GetUrl | ChooseFormat | End

  datatype MediaKind = Video | Audio

  /** The bot's text replies, in the order the handlers send them. */
  datatype Reply =
    | Instructions       // the /start welcome text
    | FormatMenu         // "what do you want to download?" with the two-button keyboard
    | NoUrlFound         // no URL stored yet
    | DownloadStarting   // the message later edited with progress
    | InvalidOption      // neither label
    | SendFailed         // the error text contained "Timed out"
    | DownloadFailed(kind: MediaKind)
    | AskForAnother      // "send me another URL"
    | Cancelled

  /** Which download a handler started, with the URL it passed. */
  datatype Dispatch = NoDownload | Download(kind: MediaKind, url: string)

  /** The two labels of the format keyboard. */
  const VIDEO_LABEL := "🎥 Video"
  const AUDIO_LABEL := "🎵 Audio"

  /** `get_url`'s cleaning: keep the text before the first `&`, if there is one. */
  function CleanUrl(text: string): (url: string)
    ensures '&' !in url
    ensures url <= text
    ensures '&' in text ==> |url| < |text| && text[|url|] == '&'
    ensures '&' !in text ==> url == text
  {
    if '&' in text then BeforeFirst(text, '&') else text
  }

  /** Cleaning a cleaned URL changes nothing. */
  lemma CleanUrlIdempotent(text: string)
    ensures CleanUrl(CleanUrl(text)) == CleanUrl(text)
  {
  }

  /** One chat: its `context.user_data` entries and the replies sent to it. */
  class Session {
    /** `user_data['url']`. */
    var url: Option<string>
    /** `user_data['progress_message']`: the index of that reply in `replies`. */
    var progressMessage: Option<nat>
    /** The replies these handlers have sent to this chat; the downloads' own texts are not among them. */
    var replies: seq<Reply>

    constructor ()
      ensures url == None && progressMessage == None && replies == []
    {
      url := None;
      progressMessage := None;
      replies := [];
    }

    /** A URL is stored and it is not the empty string (Python treats both `None` and `""` as false). */
    predicate HasUrl()
      reads this
    {
      url.Some? && url.value != ""
    }

    /** `start`: sends the instructions; the stored data is left as it is. */
    method Start() returns (next: ConvState)
      modifies this`replies
      ensures next == GetUrl
      ensures replies == old(replies) + [Instructions]
    {
      replies := replies + [Instructions];
      next := GetUrl;
    }

    /** `get_url`: stores the cleaned text as the URL and offers the two formats. */
    method ReceiveUrl(text: string) returns (next: ConvState)
      modifies this`url, this`replies
      ensures url == Some(CleanUrl(text))
      ensures replies == old(replies) + [FormatMenu]
      ensures next == ChooseFormat
    {
      var cleaned := text;
      if '&' in cleaned {
        cleaned := BeforeFirst(cleaned, '&');
      }
      url := Some(cleaned);
      replies := replies + [FormatMenu];
      next := ChooseFormat;
    }

    /**
     * `choose_format`: with `outcome` the way the started download ended. Every
     * exception of the download is caught here and answered, never propagated.
     */
    method ReceiveFormat(text: string, outcome: Outcome) returns (next: ConvState, dispatch: Dispatch)
      modifies this`progressMessage, this`replies
      // no URL stored: no download, no progress message
      ensures !HasUrl() ==>
        && next == GetUrl && dispatch == NoDownload
        && replies == old(replies) + [NoUrlFound] && progressMessage == old(progressMessage)
      // otherwise the progress message is sent and stored before the label is looked at
      ensures HasUrl() ==> progressMessage == Some(|old(replies)|)
      ensures HasUrl() && text != VIDEO_LABEL && text != AUDIO_LABEL ==>
        && next == ChooseFormat && dispatch == NoDownload
        && replies == old(replies) + [DownloadStarting, InvalidOption]
      ensures HasUrl() && (text == VIDEO_LABEL || text == AUDIO_LABEL) ==>
        var kind := if text == VIDEO_LABEL then Video else Audio;
        && next == GetUrl
        && dispatch == Download(kind, url.value)
        // a download that returned or raised is answered, never propagated; a raised
        // error is a send error exactly when its text contains "Timed out"
        && (outcome.Returned? ==> replies == old(replies) + [DownloadStarting, AskForAnother])
        && (outcome.Raised? && Contains(outcome.message, TIMED_OUT) ==>
              replies == old(replies) + [DownloadStarting, SendFailed, AskForAnother])
        && (outcome.Raised? && !Contains(outcome.message, TIMED_OUT) ==>
              replies == old(replies) + [DownloadStarting, DownloadFailed(kind), AskForAnother])
    {
      if !HasUrl() {
        replies := replies + [NoUrlFound];
        return GetUrl, NoDownload;
      }
      progressMessage := Some(|replies|);
      replies := replies + [DownloadStarting];
      var kind: MediaKind;
      if text == VIDEO_LABEL {
        kind := Video;
      } else if text == AUDIO_LABEL {
        kind := Audio;
      } else {
        replies := replies + [InvalidOption];
        return ChooseFormat, NoDownload;
      }
      dispatch := Download(kind, url.value);
      if outcome.Raised? {
        replies := replies + [if Contains(outcome.message, TIMED_OUT) then SendFailed else DownloadFailed(kind)];
      }
      replies := replies + [AskForAnother];
      next := GetUrl;
    }

    /** `cancel`: confirms and ends the conversation; the stored data is left as it is. */
    method Cancel() returns (next: ConvState)
      modifies this`replies
      ensures next == End
      ensures replies == old(replies) + [Cancelled]
    {
      replies := replies + [Cancelled];
      next := End;
    }
  }
}
