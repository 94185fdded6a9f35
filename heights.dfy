/**
 * The format side of yt_dl_menu.py: the standard height caps, the two
 * selector builders, and the heights a single video offers, read off the
 * format records of its probe.
 */
module Heights {
  import opened Wrappers
  import opened Selectors

  /** The caps the playlist menu offers, tallest first. */
  const StdHeights: seq<int> := [4320, 2160, 1440, 1080, 720, 480, 360, 240, 144]

  /** `pick_format_for_height(h)`: the long-spelling selector capped at `h`. */
  function PickFormatForHeight(h: int): string {
    Capped(Long, h)
  }

  /** `best_format()` */
  function BestFormat(): string {
    Best
  }

  /** Both branches of the selector are capped at `h`, and no cap gives the uncapped selector. */
  lemma PickFormatCaps(h: int)
    ensures ReadCaps(Long, PickFormatForHeight(h)) == Some((h, h))
    ensures PickFormatForHeight(h) != BestFormat()
  {
    ReadCapsCapped(Long, h);
    CappedInjective(Long, h, h);
  }

  /** Different caps give different selectors. */
  lemma PickFormatInjective(h1: int, h2: int)
    requires PickFormatForHeight(h1) == PickFormatForHeight(h2)
    ensures h1 == h2
  {
    PickFormatCaps(h1);
    PickFormatCaps(h2);
  }

  /** One format record: `vcodec` and `height`, each possibly missing; a height that is not an int counts as missing. */
  datatype Format = Format(vcodec: Option<string>, height: Option<int>)

  /** `f.get("vcodec") and f["vcodec"] != "none"` */
  predicate HasVideo(f: Format) {
    f.vcodec.Some? && f.vcodec.value != "" && f.vcodec.value != "none"
  }

  /** Some video format of `formats` is exactly `h` pixels tall. */
  predicate HeightAvailable(formats: seq<Format>, h: int) {
    exists f :: f in formats && HasVideo(f) && f.height == Some(h)
  }

  predicate StrictlyDescending(s: seq<int>) {
    forall i, j :: 0 <= i < j < |s| ==> s[i] > s[j]
  }

  /** `x` placed into the strictly descending `s`; a height already there is not repeated. */
  function InsertDescending(x: int, s: seq<int>): (r: seq<int>)
    requires StrictlyDescending(s)
    ensures StrictlyDescending(r)
    ensures forall y :: y in r <==> y == x || y in s
    ensures r != [] && (s == [] || r[0] == s[0] || r[0] == x)
  {
    if s == [] || x > s[0] then [x] + s
    else if x == s[0] then s
    else [s[0]] + InsertDescending(x, s[1..])
  }

  /** `sorted(s, reverse=True)` of the distinct elements of `s`: each once, tallest first. */
  function SortDescending(s: seq<int>): (r: seq<int>)
    ensures StrictlyDescending(r)
    ensures forall x :: x in r <==> x in s
  {
    if s == [] then [] else InsertDescending(s[0], SortDescending(s[1..]))
  }

  /** `detect_single_video_heights(info)`, given `info.get("formats") or []`. */
  method DetectSingleVideoHeights(formats: seq<Format>) returns (heights: seq<int>)
    ensures StrictlyDescending(heights)
    ensures forall h :: h in heights <==> HeightAvailable(formats, h)
  {
    // the Python set, as its elements without repetition
    var found: seq<int> := [];
    for i := 0 to |formats|
      invariant forall h :: h in found <==> HeightAvailable(formats[..i], h)
    {
      var f := formats[i];
      assert formats[..i + 1] == formats[..i] + [f];
      if HasVideo(f) && f.height.Some? && f.height.value !in found {
        found := found + [f.height.value];
      }
    }
    assert formats[..|formats|] == formats;
    heights := SortDescending(found);
  }
}
