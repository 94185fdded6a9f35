/**
 * The resolution menus of yt_dl_menu.py and the choice between them in
 * `main`. Option "1" is the uncapped selector, options "2".."n+1" cap at the
 * listed heights, option "n+2" asks for a custom cap, and anything else asks
 * again. Each typed line is stripped before it is compared.
 */
module Menu {
  import opened Wrappers
  import opened PyText
  import opened Heights

  /** The `mapping` dict the menu loop builds: `str(k + 2)` to `heights[k]`. */
  function MenuMapping(heights: seq<int>): map<string, int>
    decreases |heights|
  {
    if heights == [] then map[]
    else
      var n := |heights|;
      MenuMapping(heights[..n - 1])[NatToString(n + 1) := heights[n - 1]]
  }

  /** The number of the custom-cap option, `str(idx)` after the loop. */
  function CustomOption(heights: seq<int>): string {
    NatToString(|heights| + 2)
  }

  /** The loop that numbers the heights from 2 and leaves `idx` at the custom option. */
  method BuildMenu(heights: seq<int>) returns (mapping: map<string, int>, custom: string)
    ensures mapping == MenuMapping(heights)
    ensures custom == CustomOption(heights)
  {
    mapping := map[];
    var idx: nat := 2;
    for i := 0 to |heights|
      invariant idx == i + 2
      invariant mapping == MenuMapping(heights[..i])
    {
      assert heights[..i + 1][..i] == heights[..i];
      mapping := mapping[NatToString(idx) := heights[i]];
      idx := idx + 1;
    }
    assert heights[..|heights|] == heights;
    custom := NatToString(idx);
  }

  /** What one typed choice asks for: a selector, the custom cap prompt, or another try. */
  datatype Reply = Selected(format: string) | AskCap | Invalid

  /** One pass of the `while True` loop up to the choice test. */
  function Answer(heights: seq<int>, choice: string): Reply {
    var c := Strip(choice);
    var mapping := MenuMapping(heights);
    if c == "1" then Selected(BestFormat())
    else if c == CustomOption(heights) then AskCap
    else if c in mapping then Selected(PickFormatForHeight(mapping[c]))
    else Invalid
  }

  /** The custom cap typed, when it is a run of decimal digits. */
  function CustomCap(cap: string): Option<nat> {
    var t := Strip(cap);
    if IsDigitString(t) then Some(DigitsValue(t)) else None
  }

  /** The selector of a custom cap; `None` prints "Invalid number." and asks again. */
  function CapReply(cap: string): Option<string> {
    match CustomCap(cap)
    case Some(h) => Some(PickFormatForHeight(h))
    case None => None
  }

  /**
   * The selector the menu returns for the lines typed, in order; `None` when
   * the lines run out first, where `input` would raise `EOFError`.
   */
  function Dialogue(heights: seq<int>, lines: seq<string>): Option<string>
    decreases |lines|
  {
    if lines == [] then None
    else match Answer(heights, lines[0])
      case Selected(f) => Some(f)
      case Invalid => Dialogue(heights, lines[1..])
      case AskCap =>
        if |lines| == 1 then None
        else match CapReply(lines[1])
          case Some(f) => Some(f)
          case None => Dialogue(heights, lines[2..])
  }

  /**
   * `ask_resolution_menu_single(heights)`, and `ask_resolution_menu_playlist()`
   * when `heights` is `StdHeights`, reading its answers from `lines`.
   */
  method AskResolutionMenu(heights: seq<int>, lines: seq<string>) returns (fmt: Option<string>)
    ensures fmt == Dialogue(heights, lines)
  {
    var mapping, custom := BuildMenu(heights);
    var i := 0;
    while i < |lines|
      invariant 0 <= i <= |lines|
      invariant Dialogue(heights, lines) == Dialogue(heights, lines[i..])
      decreases |lines| - i
    {
      assert lines[i..][1..] == lines[i + 1..];
      var choice := Strip(lines[i]);
      i := i + 1;
      if choice == "1" {
        return Some(BestFormat());
      }
      if choice == custom {
        if i == |lines| {
          return None;
        }
        assert lines[i - 1..][2..] == lines[i + 1..];
        var cap := Strip(lines[i]);
        i := i + 1;
        if IsDigitString(cap) {
          return Some(PickFormatForHeight(DigitsValue(cap)));
        }
        continue;
      }
      if choice in mapping {
        return Some(PickFormatForHeight(mapping[choice]));
      }
    }
    return None;
  }

  // ---------------------------------------------------------------- properties

  /** The mapping numbers the heights `2..n+1`, and has no other key. */
  predicate NumbersHeights(heights: seq<int>, mapping: map<string, int>) {
    && (forall k: nat :: 2 <= k < |heights| + 2 ==> NatToString(k) in mapping && mapping[NatToString(k)] == heights[k - 2])
    && (forall key :: key in mapping ==>
         IsDigitString(key) && 2 <= DigitsValue(key) < |heights| + 2 && key == NatToString(DigitsValue(key)))
  }

  /** Each number `2..n+1` is a key of the mapping, bound to its height. */
  lemma {:induction false} MenuMappingValues(heights: seq<int>)
    ensures forall k: nat :: 2 <= k < |heights| + 2 ==>
      NatToString(k) in MenuMapping(heights) && MenuMapping(heights)[NatToString(k)] == heights[k - 2]
    decreases |heights|
  {
    if heights != [] {
      var n := |heights|;
      var init := heights[..n - 1];
      MenuMappingValues(init);
      forall k: nat | 2 <= k < n + 1
        ensures NatToString(k) in MenuMapping(heights) && MenuMapping(heights)[NatToString(k)] == heights[k - 2]
      {
        assert NatToString(k) != NatToString(n + 1);
        assert heights[k - 2] == init[k - 2];
      }
    }
  }

  /** The mapping has no key but the numbers `2..n+1`, each written without leading zeros. */
  lemma {:induction false} MenuMappingKeys(heights: seq<int>)
    ensures forall key :: key in MenuMapping(heights) ==>
      IsDigitString(key) && 2 <= DigitsValue(key) < |heights| + 2 && key == NatToString(DigitsValue(key))
    decreases |heights|
  {
    if heights != [] {
      MenuMappingKeys(heights[..|heights| - 1]);
    }
  }

  lemma MenuMappingNumbers(heights: seq<int>)
    ensures NumbersHeights(heights, MenuMapping(heights))
  {
    MenuMappingValues(heights);
    MenuMappingKeys(heights);
  }

  /** Option "1" is the uncapped selector, and option "n+2" asks for a custom cap. */
  lemma AnswerFixedOptions(heights: seq<int>)
    ensures Answer(heights, "1") == Selected(BestFormat())
    ensures Answer(heights, CustomOption(heights)) == AskCap
  {
    assert NatToString(1) == "1";
    StripUnpadded("1");
    StripUnpadded(CustomOption(heights));
  }

  /** Option "k" for `2 <= k <= n+1` caps at the `(k-1)`-th listed height. */
  lemma AnswerListed(heights: seq<int>, k: nat)
    requires 2 <= k <= |heights| + 1
    ensures Answer(heights, NatToString(k)) == Selected(PickFormatForHeight(heights[k - 2]))
  {
    var c := NatToString(k);
    StripUnpadded(c);
    assert NatToString(1) == "1";
    assert c != NatToString(1);
    assert c != CustomOption(heights);
    MenuMappingNumbers(heights);
  }

  /** Any other choice, once stripped, asks again. */
  lemma AnswerInvalid(heights: seq<int>, choice: string)
    requires Strip(choice) != "1"
    requires forall k :: 2 <= k <= |heights| + 2 ==> Strip(choice) != NatToString(k)
    ensures Answer(heights, choice) == Invalid
  {
    var c := Strip(choice);
    MenuMappingNumbers(heights);
    assert c != NatToString(|heights| + 2);
    assert c !in MenuMapping(heights);
  }

  /** Padding a choice with whitespace does not change what it selects. */
  lemma AnswerPadding(heights: seq<int>, pre: string, choice: string, post: string)
    requires AllSpace(pre) && AllSpace(post)
    ensures Answer(heights, pre + choice + post) == Answer(heights, choice)
  {
    StripPadded(pre, choice, post);
  }

  /** A custom cap is accepted exactly when it is a digit run, and then caps at its value. */
  lemma CapReplyCases(cap: string)
    ensures CapReply(cap).Some? <==> IsDigitString(Strip(cap))
    ensures IsDigitString(Strip(cap)) ==> CapReply(cap) == Some(PickFormatForHeight(DigitsValue(Strip(cap))))
    ensures CustomCap(cap).Some? ==> ParseInt(cap) == Some(CustomCap(cap).value as int)
  {
    var t := Strip(cap);
    if IsDigitString(t) {
      ParseIntDigits(t);
      StripUnpadded(t);
    }
  }

  /** `int(t)` of a digit run is its decimal value. */
  lemma ParseIntDigits(t: string)
    requires IsDigitString(t)
    ensures ParseInt(t) == Some(DigitsValue(t) as int)
  {
    assert !IsSpace(t[0]) && !IsSpace(t[|t| - 1]);
    StripUnpadded(t);
    assert IsUnderscoredDigits(t);
    ParseSignedUnsigned(t);
  }

  /** The playlist menu lists the nine standard caps, tallest first. */
  lemma StdHeightsDescending()
    ensures |StdHeights| == 9 && StrictlyDescending(StdHeights)
  {
  }

  /** So the playlist menu's custom option is "11". */
  lemma PlaylistCustomOption()
    ensures CustomOption(StdHeights) == "11"
  {
    assert NatToString(11) == [DigitChar(1)] + [DigitChar(1)];
  }

  /** Option "2" of the playlist menu caps at 4320. */
  lemma PlaylistFirstOption()
    ensures Answer(StdHeights, "2") == Selected(PickFormatForHeight(4320))
  {
    var two := NatToString(2);
    assert two == "2";
    AnswerListed(StdHeights, 2);
  }

  // ------------------------------------------------- the custom cap as written

  /**
   * `str.isdigit` for one character, over the ASCII digits and the superscript
   * digits two, three and one of Latin-1, which Python counts as digits
   * although they have no decimal value.
   */
  predicate PyIsDigit(c: char) {
    IsDigit(c) || c == '\U{B2}' || c == '\U{B3}' || c == '\U{B9}'
  }

  predicate PyIsDigitString(s: string) {
    s != [] && forall i :: 0 <= i < |s| ==> PyIsDigit(s[i])
  }

  /**
   * The custom-cap branch as written: `cap.isdigit()` and then `int(cap)`;
   * `Failure` is the `ValueError` that `int` raises, which nothing catches.
   */
  function CapAsWritten(cap: string): Result<Option<string>> {
    var t := Strip(cap);
    if PyIsDigitString(t) then
      match ParseInt(t)
      case Some(v) => Success(Some(PickFormatForHeight(v)))
      case None => Failure("ValueError")
    else Success(None)
  }

  /** A superscript two passes the digit test and then makes `int` raise. */
  lemma CapAsWrittenRaises()
    ensures CapAsWritten("\U{B2}") == Failure("ValueError")
  {
    var t := "\U{B2}";
    StripUnpadded(t);
    assert !IsUnderscoredDigits(t);
  }

  /**
   * The branch as written fails exactly on digit text that is not all decimal
   * digits, and otherwise agrees with `CapReply`.
   */
  lemma CapAsWrittenAgrees(cap: string)
    ensures CapAsWritten(cap).Failure? <==> PyIsDigitString(Strip(cap)) && !AllDigits(Strip(cap))
    ensures CapAsWritten(cap).Success? ==> CapAsWritten(cap).value == CapReply(cap)
  {
    var t := Strip(cap);
    if PyIsDigitString(t) {
      if AllDigits(t) {
        ParseIntDigits(t);
      } else {
        StripUnpadded(t);
        var i :| 0 <= i < |t| && !IsDigit(t[i]);
        assert t[i] != '_' && t[0] != '-' && t[0] != '+';
        assert !IsUnderscoredDigits(t);
      }
    } else {
      assert !IsDigitString(t);
    }
  }

  /** Which menu `main` shows. */
  datatype MenuKind = PlaylistMenu | SingleMenu(heights: seq<int>)

  /** The heights a menu lists. */
  function MenuHeights(m: MenuKind): seq<int> {
    match m
    case PlaylistMenu => StdHeights
    case SingleMenu(hs) => hs
  }

  /**
   * The branch in `main`: the playlist menu for a probe with entries, else the
   * single-video menu with the detected heights, or the playlist menu when
   * none were detected.
   */
  method ChooseMenu(playlistLike: bool, formats: seq<Format>) returns (m: MenuKind)
    ensures m == PlaylistMenu <==> playlistLike || forall h :: !HeightAvailable(formats, h)
    ensures m.SingleMenu? ==> m.heights != [] && StrictlyDescending(m.heights)
    ensures m.SingleMenu? ==> forall h :: h in m.heights <==> HeightAvailable(formats, h)
  {
    if playlistLike {
      return PlaylistMenu;
    }
    var heights := DetectSingleVideoHeights(formats);
    if heights == [] {
      return PlaylistMenu;
    }
    assert HeightAvailable(formats, heights[0]);
    return SingleMenu(heights);
  }

  /** `bool(info.get("entries"))`, given the number of entries (0 when missing). */
  function IsPlaylistLike(entryCount: nat): bool {
    entryCount > 0
  }

  /**
   * The selector `main` hands to the downloader, from the probe and the lines
   * typed: the dialogue over the standard heights for a playlist-like probe or
   * one with no detected height, and otherwise over the detected heights,
   * tallest first.
   */
  method SelectFormat(entryCount: nat, formats: seq<Format>, lines: seq<string>) returns (fmt: Option<string>)
    ensures exists m: MenuKind ::
      && (m == PlaylistMenu <==> entryCount > 0 || forall h :: !HeightAvailable(formats, h))
      && (m.SingleMenu? ==> StrictlyDescending(m.heights) && forall h :: h in m.heights <==> HeightAvailable(formats, h))
      && fmt == Dialogue(MenuHeights(m), lines)
  {
    var m := ChooseMenu(IsPlaylistLike(entryCount), formats);
    fmt := AskResolutionMenu(MenuHeights(m), lines);
  }
}
