/**
 * `parse_quality_to_fmt` of playlist.py: a quality typed by the user (`max`,
 * `1080p`, `4k`, `custom:900`, ...) becomes a yt-dlp format selector in the
 * short spelling, capped at a height or uncapped. Text it does not recognise
 * falls back to the uncapped selector with a warning.
 */
module Quality {
  import opened Wrappers
  import opened PyText
  import opened Selectors

  /** `q.strip().lower()` */
  function Normalize(q: string): string {
    Lower(Strip(q))
  }

  /** The texts that ask for the uncapped selector. */
  predicate IsBestSynonym(n: string) {
    n == "" || n == "max" || n == "best" || n == "highest"
  }

  /** The fixed tiers and their heights. */
  const Tiers: map<string, nat> := map[
    "2160p" := 2160, "2160" := 2160, "4k" := 2160,
    "1440p" := 1440, "1440" := 1440, "2k" := 1440,
    "1080p" := 1080, "1080" := 1080,
    "720p" := 720, "720" := 720,
    "480p" := 480, "480" := 480,
    "360p" := 360, "360" := 360
  ]

  const CustomPrefix: string := "custom:"

  /** The text after an optional leading `custom:`. */
  function CustomBody(n: string): string {
    match AfterPrefix(CustomPrefix, n)
    case Some(b) => b
    case None => n
  }

  /** The text before an optional trailing `p`. */
  function DropP(b: string): string {
    if b != [] && b[|b| - 1] == 'p' then b[..|b| - 1] else b
  }

  /**
   * `re.match(r"(custom:)?(\d{3,4})p?$", n)`: an optional `custom:`, three or
   * four digits, an optional `p`, and nothing else; the digits' value.
   */
  function MatchCustom(n: string): Option<nat> {
    var d := DropP(CustomBody(n));
    if 3 <= |d| <= 4 && AllDigits(d) then Some(DigitsValue(d)) else None
  }

  /** How a normalised quality text is read. */
  datatype Reading = Uncapped | Cap(height: nat) | Unrecognized

  function Classify(n: string): Reading {
    if IsBestSynonym(n) then Uncapped
    else if n in Tiers then Cap(Tiers[n])
    else
      match MatchCustom(n)
      case Some(h) => Cap(h)
      case None => Unrecognized
  }

  /** The selector, and whether the "Unrecognized quality" warning is printed. */
  datatype Choice = Choice(format: string, unrecognized: bool)

  /** `parse_quality_to_fmt(q)` */
  function ParseQualityToFmt(q: string): Choice {
    match Classify(Normalize(q))
    case Uncapped => Choice(Best, false)
    case Cap(h) => Choice(Capped(Short, h), false)
    case Unrecognized => Choice(Best, true)
  }

  // ---------------------------------------------------------------- properties

  /** The shapes the pattern accepts: `custom:` or nothing, digits, `p` or nothing. */
  predicate CustomForm(pre: string, d: string, suf: string) {
    && (pre == "" || pre == CustomPrefix)
    && 3 <= |d| <= 4 && AllDigits(d)
    && (suf == "" || suf == "p")
  }

  /** Every text of a custom shape matches, with the value of its digits. */
  lemma MatchCustomComplete(pre: string, d: string, suf: string)
    requires CustomForm(pre, d, suf)
    ensures MatchCustom(pre + d + suf) == Some(DigitsValue(d))
  {
    var n := pre + d + suf;
    if pre == CustomPrefix {
      assert n == CustomPrefix + (d + suf);
      AfterPrefixOf(CustomPrefix, d + suf);
    } else {
      assert n == d + suf;
      assert n[0] != CustomPrefix[0];
    }
    assert CustomBody(n) == d + suf;
    if suf == "p" {
      assert (d + suf)[..|d + suf| - 1] == d;
    } else {
      assert d + suf == d;
    }
  }

  lemma CustomBodySplit(n: string)
    ensures exists pre :: (pre == "" || pre == CustomPrefix) && n == pre + CustomBody(n)
  {
    if AfterPrefix(CustomPrefix, n).Some? {
      assert n == CustomPrefix + CustomBody(n);
    } else {
      assert n == "" + CustomBody(n);
    }
  }

  lemma DropPSplit(b: string)
    ensures exists suf :: (suf == "" || suf == "p") && b == DropP(b) + suf
  {
    if b != [] && b[|b| - 1] == 'p' {
      assert b == DropP(b) + "p";
    } else {
      assert b == DropP(b) + "";
    }
  }

  /** Only texts of a custom shape match, and the value is that of their digits. */
  lemma MatchCustomSound(n: string)
    requires MatchCustom(n).Some?
    ensures exists pre, d, suf :: CustomForm(pre, d, suf) && n == pre + d + suf && DigitsValue(d) == MatchCustom(n).value
  {
    var b := CustomBody(n);
    var d := DropP(b);
    CustomBodySplit(n);
    DropPSplit(b);
    var pre :| (pre == "" || pre == CustomPrefix) && n == pre + b;
    var suf :| (suf == "" || suf == "p") && b == d + suf;
    assert n == pre + d + suf;
    assert CustomForm(pre, d, suf);
  }

  /** A custom height has at most four digits. */
  lemma MatchCustomBound(n: string)
    requires MatchCustom(n).Some?
    ensures MatchCustom(n).value <= 9999
  {
    var d := DropP(CustomBody(n));
    DigitsValueBound(d);
    assert Pow10(4) == 10000;
    assert Pow10(|d|) <= 10000;
  }

  /** A digit key of the table, and the same key with `p`, match as its height. */
  lemma TierMatches(d: string, h: nat)
    requires 3 <= |d| <= 4 && AllDigits(d) && DigitsValue(d) == h
    ensures MatchCustom(d) == Some(h) && MatchCustom(d + "p") == Some(h)
  {
    TierMatchesBare(d, h);
    TierMatchesSuffixed(d, h);
  }

  /** Too short for `custom:`, and ending in a digit, so the digits are the whole text. */
  lemma TierMatchesBare(d: string, h: nat)
    requires 3 <= |d| <= 4 && AllDigits(d) && DigitsValue(d) == h
    ensures MatchCustom(d) == Some(h)
  {
    assert CustomBody(d) == d;
    assert DropP(d) == d;
  }

  lemma TierMatchesSuffixed(d: string, h: nat)
    requires 3 <= |d| <= 4 && AllDigits(d) && DigitsValue(d) == h
    ensures MatchCustom(d + "p") == Some(h)
  {
    var n := d + "p";
    assert CustomBody(n) == n;
    assert n[..|n| - 1] == d;
  }

  lemma TierMatches4(d: string, h: nat)
    requires |d| == 4 && AllDigits(d)
    requires h == 1000 * DigitValue(d[0]) + 100 * DigitValue(d[1]) + 10 * DigitValue(d[2]) + DigitValue(d[3])
    ensures MatchCustom(d) == Some(h) && MatchCustom(d + "p") == Some(h)
  {
    FourDigits(d);
    TierMatches(d, h);
  }

  lemma TierMatches3(d: string, h: nat)
    requires |d| == 3 && AllDigits(d)
    requires h == 100 * DigitValue(d[0]) + 10 * DigitValue(d[1]) + DigitValue(d[2])
    ensures MatchCustom(d) == Some(h) && MatchCustom(d + "p") == Some(h)
  {
    ThreeDigits(d);
    TierMatches(d, h);
  }

  lemma TiersMatchHigh()
    ensures MatchCustom("2160") == Some(2160) && MatchCustom("2160p") == Some(2160)
    ensures MatchCustom("1440") == Some(1440) && MatchCustom("1440p") == Some(1440)
    ensures MatchCustom("1080") == Some(1080) && MatchCustom("1080p") == Some(1080)
  {
    TierMatches4("2160", 2160);
    assert "2160" + "p" == "2160p";
    TierMatches4("1440", 1440);
    assert "1440" + "p" == "1440p";
    TierMatches4("1080", 1080);
    assert "1080" + "p" == "1080p";
  }

  lemma TiersMatchLow()
    ensures MatchCustom("720") == Some(720) && MatchCustom("720p") == Some(720)
    ensures MatchCustom("480") == Some(480) && MatchCustom("480p") == Some(480)
    ensures MatchCustom("360") == Some(360) && MatchCustom("360p") == Some(360)
  {
    TierMatches3("720", 720);
    assert "720" + "p" == "720p";
    TierMatches3("480", 480);
    assert "480" + "p" == "480p";
    TierMatches3("360", 360);
    assert "360" + "p" == "360p";
  }

  /**
   * The table adds only the `4k` and `2k` aliases: every other key is read by
   * the custom pattern as the same height.
   */
  lemma TiersAgreeWithPattern()
    ensures forall k :: k in Tiers && k != "4k" && k != "2k" ==> MatchCustom(k) == Some(Tiers[k])
  {
    TiersMatchHigh();
    TiersMatchLow();
  }

  /** What a reading promises: caps are at most four digits, and the warning goes with no cap. */
  lemma ClassifyBound(n: string)
    ensures Classify(n).Cap? ==> Classify(n).height <= 9999
  {
    if !IsBestSynonym(n) && n !in Tiers && MatchCustom(n).Some? {
      MatchCustomBound(n);
    }
  }

  /**
   * The texts the parser knows: a synonym of "max", a key of the table, or a
   * text of a custom shape.
   */
  ghost predicate Recognized(n: string) {
    || IsBestSynonym(n)
    || n in Tiers
    || exists pre, d, suf :: CustomForm(pre, d, suf) && n == pre + d + suf
  }

  /** A normalised text is unrecognized exactly when it is none of the known forms. */
  lemma ClassifyUnrecognized(n: string)
    ensures Classify(n) == Unrecognized <==> !Recognized(n)
  {
    if Classify(n) == Unrecognized {
      if exists pre, d, suf :: CustomForm(pre, d, suf) && n == pre + d + suf {
        var pre, d, suf :| CustomForm(pre, d, suf) && n == pre + d + suf;
        MatchCustomComplete(pre, d, suf);
        assert false;
      }
    } else if !IsBestSynonym(n) && n !in Tiers {
      MatchCustomSound(n);
    }
  }

  /**
   * The selector is the uncapped one exactly when no cap was read, and a
   * capped one reads back as the same cap on both branches, at most 9999;
   * the warning is printed exactly for text that is none of the known forms,
   * and then with the uncapped selector.
   */
  lemma ParseQualityShape(q: string)
    ensures var r := ParseQualityToFmt(q);
      && (r.format == Best <==> !Classify(Normalize(q)).Cap?)
      && (r.unrecognized <==> !Recognized(Normalize(q)))
      && (r.unrecognized ==> r.format == Best)
      && (Classify(Normalize(q)).Cap? ==>
            var h := Classify(Normalize(q)).height;
            h <= 9999 && ReadCaps(Short, r.format) == Some((h, h)))
  {
    var c := Classify(Normalize(q));
    ClassifyBound(Normalize(q));
    ClassifyUnrecognized(Normalize(q));
    if c.Cap? {
      ReadCapsCapped(Short, c.height);
      CappedInjective(Short, c.height, c.height);
    }
  }

  /** Surrounding whitespace does not change the choice. */
  lemma ParseQualityPadding(pre: string, q: string, post: string)
    requires AllSpace(pre) && AllSpace(post)
    ensures ParseQualityToFmt(pre + q + post) == ParseQualityToFmt(q)
  {
    StripPadded(pre, q, post);
  }

  /** Letter case does not change the choice. */
  lemma ParseQualityCaseInsensitive(q: string)
    ensures ParseQualityToFmt(Lower(q)) == ParseQualityToFmt(q)
  {
    StripLower(q);
    LowerIdempotent(Strip(q));
  }

  /** Text with no whitespace at its ends and no capitals is already normalised. */
  lemma NormalizeTidy(n: string)
    requires n == [] || (!IsSpace(n[0]) && !IsSpace(n[|n| - 1]))
    requires forall i :: 0 <= i < |n| ==> !('A' <= n[i] <= 'Z')
    ensures Normalize(n) == n
  {
    StripUnpadded(n);
    LowerUnchanged(n);
  }

  /** The synonyms of "max" give the uncapped selector without a warning. */
  lemma ParseQualityBest(q: string)
    requires IsBestSynonym(q)
    ensures ParseQualityToFmt(q) == Choice(Best, false)
  {
    NormalizeTidy(q);
  }

  /** `4k` and `2k` are aliases of 2160 and 1440. */
  lemma ParseQualityAliases()
    ensures Classify(Normalize("4k")) == Cap(2160)
    ensures Classify(Normalize("2k")) == Cap(1440)
  {
    NormalizeTidy("4k");
    NormalizeTidy("2k");
    ClassifyAliases();
  }

  /** Every key of the table, typed as it is, gives the selector capped at that key's height. */
  lemma ParseQualityTiers()
    ensures forall k :: k in Tiers ==> ParseQualityToFmt(k) == Choice(Capped(Short, Tiers[k]), false)
  {
    forall k | k in Tiers
      ensures ParseQualityToFmt(k) == Choice(Capped(Short, Tiers[k]), false)
    {
      TierKeyTidy(k);
      TiersNotBest();
      assert Classify(k) == Cap(Tiers[k]);
    }
  }

  /** The keys of the table are not synonyms of "max". */
  lemma TiersNotBest()
    ensures forall k :: k in Tiers ==> !IsBestSynonym(k)
  {
  }

  /** A key of the table is already normalised. */
  lemma TierKeyTidy(k: string)
    requires k in Tiers
    ensures Normalize(k) == k
  {
    NormalizeTidy(k);
  }

  lemma ClassifyAliases()
    ensures Classify("4k") == Cap(2160)
    ensures Classify("2k") == Cap(1440)
  {
  }

  lemma CustomFormTidy(pre: string, d: string, suf: string)
    requires CustomForm(pre, d, suf)
    ensures Normalize(pre + d + suf) == pre + d + suf
  {
    var n := pre + d + suf;
    assert forall i :: 0 <= i < |pre| ==> n[i] == pre[i];
    assert forall i :: |pre| <= i < |pre| + |d| ==> n[i] == d[i - |pre|];
    assert forall i :: |pre| + |d| <= i < |n| ==> n[i] == suf[i - |pre| - |d|];
    NormalizeTidy(n);
  }

  lemma ClassifyCustom(pre: string, d: string, suf: string)
    requires CustomForm(pre, d, suf)
    ensures Classify(pre + d + suf) == Cap(DigitsValue(d))
  {
    var n := pre + d + suf;
    MatchCustomComplete(pre, d, suf);
    assert !IsBestSynonym(n) by {
      assert |n| >= 3 && (n[0] == 'c' || IsDigit(n[0]));
    }
    if n in Tiers {
      TiersAgreeWithPattern();
    }
  }

  /** Every text of a custom shape is capped at the value of its digits, without a warning. */
  lemma ParseQualityCustom(pre: string, d: string, suf: string)
    requires CustomForm(pre, d, suf)
    ensures Classify(Normalize(pre + d + suf)) == Cap(DigitsValue(d))
    ensures ParseQualityToFmt(pre + d + suf) == Choice(Capped(Short, DigitsValue(d)), false)
  {
    CustomFormTidy(pre, d, suf);
    ClassifyCustom(pre, d, suf);
  }
}
