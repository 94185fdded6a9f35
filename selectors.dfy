/**
 * yt-dlp format selectors as the two scripts spell them. A capped selector
 * asks for the best video stream no taller than a height plus the best audio,
 * falling back to the best combined stream under the same cap. `ReadCaps` reads
 * the two caps back out of a selector string.
 */
module Selectors {
  import opened Wrappers
  import opened PyText

  /** playlist.py writes the short stream names, yt_dl_menu.py the long ones. */
  datatype Spelling = Short | Long

  function Video(sp: Spelling): string {
    match sp
    case Short => "bv*"
    case Long => "bestvideo"
  }

  function Audio(sp: Spelling): string {
    match sp
    case Short => "ba"
    case Long => "bestaudio"
  }

  function Combined(sp: Spelling): string {
    match sp
    case Short => "b"
    case Long => "best"
  }

  /** Best video plus best audio, else the best combined stream; both scripts use it. */
  const Best: string := "bv*+ba/b"

  const FilterOpen: string := "[height<="

  function HeightFilter(h: int): string {
    FilterOpen + IntToString(h) + "]"
  }

  /** `V[height<=h]+A/C[height<=h]` in the given spelling. */
  function Capped(sp: Spelling, h: int): string {
    Video(sp) + (HeightFilter(h) + (Middle(sp) + HeightFilter(h)))
  }

  /** `+A/C`, the text between the two filters of a capped selector. */
  function Middle(sp: Spelling): string {
    "+" + Audio(sp) + "/" + Combined(sp)
  }

  /** The text after a leading `p`, if `s` starts with `p`. */
  function AfterPrefix(p: string, s: string): Option<string> {
    if |p| <= |s| && s[..|p|] == p then Some(s[|p|..]) else None
  }

  lemma AfterPrefixOf(p: string, rest: string)
    ensures AfterPrefix(p, p + rest) == Some(rest)
  {
    assert (p + rest)[..|p|] == p;
  }

  /** Reads the text `str(h)` writes for an integer: an optional `-` and digits. */
  function ReadInt(s: string): Option<int> {
    if s != [] && s[0] == '-' && IsDigitString(s[1..]) then Some(-(DigitsValue(s[1..]) as int))
    else if IsDigitString(s) then Some(DigitsValue(s) as int)
    else None
  }

  lemma ReadIntOf(h: int)
    ensures ReadInt(IntToString(h)) == Some(h)
  {
    if h < 0 {
      assert IntToString(h)[1..] == NatToString(-h);
    }
  }

  /** Reads a leading `[height<=N]`, giving `N` and the rest of the text. */
  function ReadFilter(s: string): Option<(int, string)> {
    match AfterPrefix(FilterOpen, s)
    case None => None
    case Some(body) =>
      var num := TakeUntil(body, ']');
      if |num| == |body| then None
      else
        match ReadInt(num)
        case None => None
        case Some(h) => Some((h, body[|num| + 1..]))
  }

  /** The caps of the video branch and of the fallback branch of a capped selector. */
  function ReadCaps(sp: Spelling, s: string): Option<(int, int)> {
    match AfterPrefix(Video(sp), s)
    case None => None
    case Some(r1) =>
      match ReadFilter(r1)
      case None => None
      case Some((h1, r2)) =>
        match ReadFallbackCap(sp, r2)
        case None => None
        case Some(h2) => Some((h1, h2))
  }

  /** The cap of the fallback branch: `+A/C[height<=N]` and nothing after it. */
  function ReadFallbackCap(sp: Spelling, s: string): Option<int> {
    match AfterPrefix(Middle(sp), s)
    case None => None
    case Some(r) =>
      match ReadFilter(r)
      case None => None
      case Some((h, rest)) => if rest == [] then Some(h) else None
  }

  lemma {:induction false} ReadFilterOf(h: int, rest: string)
    ensures ReadFilter(HeightFilter(h) + rest) == Some((h, rest))
  {
    var d := IntToString(h);
    assert HeightFilter(h) + rest == FilterOpen + (d + "]" + rest);
    AfterPrefixOf(FilterOpen, d + "]" + rest);
    assert ']' !in d;
    TakeUntilPrefix(d, ']', rest);
    ReadIntOf(h);
    assert (d + "]" + rest)[|d| + 1..] == rest;
  }

  lemma {:induction false} ReadFallbackCapOf(sp: Spelling, h: int)
    ensures ReadFallbackCap(sp, Middle(sp) + HeightFilter(h)) == Some(h)
  {
    var f := HeightFilter(h);
    AfterPrefixOf(Middle(sp), f);
    assert f + "" == f;
    ReadFilterOf(h, "");
  }

  /** Both branches of a capped selector carry the same cap, and it reads back as `h`. */
  lemma {:induction false} ReadCapsCapped(sp: Spelling, h: int)
    ensures ReadCaps(sp, Capped(sp, h)) == Some((h, h))
  {
    var f := HeightFilter(h);
    var tail := Middle(sp) + f;
    AfterPrefixOf(Video(sp), f + tail);
    ReadFilterOf(h, tail);
    ReadFallbackCapOf(sp, h);
  }

  /** The unconstrained selector carries no cap. */
  lemma ReadCapsBest(sp: Spelling)
    ensures ReadCaps(sp, Best) == None
  {
    if sp == Short {
      assert Best[|Video(sp)|..] == "+ba/b";
      assert "+ba/b"[0] != FilterOpen[0];
    } else {
      assert Best[1] != Video(sp)[1];
    }
  }

  /** Distinct caps give distinct selectors, and none of them is the unconstrained one. */
  lemma {:induction false} CappedInjective(sp: Spelling, h1: int, h2: int)
    ensures Capped(sp, h1) == Capped(sp, h2) ==> h1 == h2
    ensures Capped(sp, h1) != Best
  {
    ReadCapsCapped(sp, h1);
    ReadCapsCapped(sp, h2);
    ReadCapsBest(sp);
  }
}
