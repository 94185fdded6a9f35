/**
 * The deterministic part of `download_one` in playlist.py: the file name
 * template that starts with the zero-padded task number, and the outcome
 * triple it hands back to the aggregator.
 */
module Download {
  import opened Wrappers
  import opened PyText
  import opened Worklist

  /** `f"{index:03d}"` */
  function IndexPrefix(index: nat): string {
    ZeroPad(index, 3)
  }

  const TitleTemplate: string := " - %(title).200B.%(ext)s"

  /** The output template's file name part: number, then yt-dlp's title and extension fields. */
  function OutputName(index: nat): string {
    IndexPrefix(index) + TitleTemplate
  }

  /** `(index, ok, msg)` as `download_one` returns it. */
  datatype Outcome = Outcome(index: nat, ok: bool, msg: string)

  /**
   * `download_one(task, ...)`, where `error` is `None` when yt-dlp finished
   * and otherwise the text of the exception it raised.
   */
  function DownloadOne(task: Task, error: Option<string>): Outcome {
    match error
    case None => Outcome(task.index, true, "ok")
    case Some(e) => Outcome(task.index, false, e)
  }

  // ---------------------------------------------------------------- properties

  /**
   * The prefix is all digits, reads back as the number, and is exactly three
   * characters for numbers below 1000 and the plain decimal spelling above.
   */
  lemma IndexPrefixRoundTrip(index: nat)
    ensures AllDigits(IndexPrefix(index)) && DigitsValue(IndexPrefix(index)) == index
    ensures |IndexPrefix(index)| >= 3
    ensures |IndexPrefix(index)| == 3 <==> index < 1000
    ensures index >= 1000 ==> IndexPrefix(index) == NatToString(index)
  {
    var d := NatToString(index);
    NatToStringLength(index, 3);
    assert Pow10(3) == 1000;
    if |d| < 3 {
      DigitsValueLeadingZeros(Zeros(3 - |d|), d);
    }
  }

  /** Distinct task numbers give distinct file names. */
  lemma OutputNameInjective(i: nat, j: nat)
    requires OutputName(i) == OutputName(j)
    ensures i == j
  {
    IndexPrefixRoundTrip(i);
    IndexPrefixRoundTrip(j);
    var a, b := IndexPrefix(i), IndexPrefix(j);
    PrefixBeforeTemplate(a, b);
  }

  lemma PrefixBeforeTemplate(a: string, b: string)
    requires a + TitleTemplate == b + TitleTemplate
    ensures a == b
  {
    var u := a + TitleTemplate;
    assert a == u[..|a|] && b == u[..|b|];
  }

  /** The outcome names the task's number, and is a success exactly when no error was raised. */
  lemma DownloadOneOutcome(task: Task, error: Option<string>)
    ensures DownloadOne(task, error).index == task.index
    ensures DownloadOne(task, error).ok <==> error.None?
    ensures !DownloadOne(task, error).ok ==> DownloadOne(task, error).msg == error.value
  {
  }
}
