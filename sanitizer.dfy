/**
 * `sanitize_folder_name` of playlist.py: every run of characters that are
 * illegal in a path segment becomes one space, the text is stripped, every
 * whitespace run becomes one space, and an empty result becomes "playlist".
 */
module Sanitizer {
  import opened PyText

  /** The characters `\ / : * ? " < > |` that the first pass replaces. */
  predicate IsIllegal(c: char) {
    c == '\\' || c == '/' || c == ':' || c == '*' || c == '?' || c == '"' || c == '<' || c == '>' || c == '|'
  }

  /** The two character classes whose runs the sanitizer collapses. */
  datatype CharClass = Illegal | Space

  predicate InClass(k: CharClass, c: char) {
    match k
    case Illegal => IsIllegal(c)
    case Space => IsSpace(c)
  }

  /**
   * `re.sub(class + "+", " ", s)`, scanning left to right; `inRun` says that
   * the character before `s` was already part of a replaced run.
   */
  function SubRunsFrom(k: CharClass, s: string, inRun: bool): (r: string)
    ensures forall i :: 0 <= i < |r| ==> r[i] == ' ' || !InClass(k, r[i])
    ensures s != [] && !InClass(k, s[0]) ==> r != [] && r[0] == s[0]
    ensures s != [] && !InClass(k, s[|s| - 1]) ==> r != [] && r[|r| - 1] == s[|s| - 1]
    decreases |s|
  {
    if s == [] then []
    else if InClass(k, s[0]) then
      (if inRun then [] else [' ']) + SubRunsFrom(k, s[1..], true)
    else
      [s[0]] + SubRunsFrom(k, s[1..], false)
  }

  function SubRuns(k: CharClass, s: string): string {
    SubRunsFrom(k, s, false)
  }

  const Fallback: string := "playlist"

  /** `sanitize_folder_name(name)` */
  function SanitizeFolderName(name: string): string {
    var stripped := Strip(SubRuns(Illegal, name));
    var collapsed := SubRuns(Space, stripped);
    if collapsed == [] then Fallback else collapsed
  }

  // ---------------------------------------------------------------- properties

  /** A character that no pass touches: neither illegal nor whitespace. */
  predicate IsKept(c: char) {
    !IsIllegal(c) && !IsSpace(c)
  }

  /** The kept characters of `s`, in order. */
  function Kept(s: string): string {
    if s == [] then [] else (if IsKept(s[0]) then [s[0]] else []) + Kept(s[1..])
  }

  predicate NoIllegal(s: string) {
    forall i :: 0 <= i < |s| ==> !IsIllegal(s[i])
  }

  /**
   * What the sanitizer promises of a folder name: not empty, no illegal
   * character, no whitespace at either end, and every whitespace character a
   * single space followed by a non-space.
   */
  predicate IsCleanName(s: string) {
    && s != []
    && NoIllegal(s)
    && !IsSpace(s[0]) && !IsSpace(s[|s| - 1])
    && (forall i :: 0 <= i < |s| && IsSpace(s[i]) ==> s[i] == ' ')
    && NoDoubleSpace(s)
  }

  lemma {:induction false} KeptConcat(a: string, b: string)
    ensures Kept(a + b) == Kept(a) + Kept(b)
    decreases |a|
  {
    if a != [] {
      assert (a + b)[0] == a[0];
      assert (a + b)[1..] == a[1..] + b;
      KeptConcat(a[1..], b);
      var h: string := if IsKept(a[0]) then [a[0]] else [];
      assert Kept(a + b) == h + (Kept(a[1..]) + Kept(b));
      assert Kept(a) == h + Kept(a[1..]);
      assert h + (Kept(a[1..]) + Kept(b)) == (h + Kept(a[1..])) + Kept(b);
    } else {
      assert a + b == b;
    }
  }

  lemma {:induction false} KeptNone(s: string)
    requires forall i :: 0 <= i < |s| ==> !IsKept(s[i])
    ensures Kept(s) == []
    decreases |s|
  {
    if s != [] {
      KeptNone(s[1..]);
    }
  }

  /** Each pass keeps the kept characters, in order. */
  lemma {:induction false} SubRunsKept(k: CharClass, s: string, inRun: bool)
    ensures Kept(SubRunsFrom(k, s, inRun)) == Kept(s)
    decreases |s|
  {
    if s != [] {
      SubRunsKept(k, s[1..], InClass(k, s[0]));
      var tail := SubRunsFrom(k, s[1..], InClass(k, s[0]));
      if InClass(k, s[0]) {
        var head: string := if inRun then [] else [' '];
        KeptConcat(head, tail);
        KeptNone(head);
      } else {
        KeptConcat([s[0]], tail);
      }
    }
  }

  lemma {:induction false} StripKept(s: string)
    ensures Kept(Strip(s)) == Kept(s)
  {
    if AllSpace(s) {
      KeptNone(s);
    } else {
      StripSplit(s);
      var a, m := LeadingSpaces(s), |Strip(s)|;
      var pre, post := s[..a], s[a + m..];
      KeptConcat(pre + Strip(s), post);
      KeptConcat(pre, Strip(s));
      KeptNone(pre);
      KeptNone(post);
    }
  }

  /** No whitespace character is directly followed by another one. */
  predicate NoDoubleSpace(s: string) {
    forall i :: 0 <= i < |s| - 1 && IsSpace(s[i]) ==> !IsSpace(s[i + 1])
  }

  lemma ConsNoDoubleSpace(c: char, t: string)
    requires NoDoubleSpace(t)
    requires IsSpace(c) ==> t == [] || !IsSpace(t[0])
    ensures NoDoubleSpace([c] + t)
  {
    var r := [c] + t;
    forall i | 0 <= i < |r| - 1 && IsSpace(r[i])
      ensures !IsSpace(r[i + 1])
    {
      if i > 0 {
        assert r[i] == t[i - 1] && r[i + 1] == t[i];
      }
    }
  }

  /** Collapsing whitespace leaves no two whitespace characters side by side. */
  lemma {:induction false} SubRunsSpaceSingle(s: string, inRun: bool)
    ensures NoDoubleSpace(SubRunsFrom(Space, s, inRun))
    ensures inRun ==> SubRunsFrom(Space, s, inRun) == [] || !IsSpace(SubRunsFrom(Space, s, inRun)[0])
    decreases |s|
  {
    if s != [] {
      SubRunsSpaceSingle(s[1..], IsSpace(s[0]));
      var tail := SubRunsFrom(Space, s[1..], IsSpace(s[0]));
      if IsSpace(s[0]) {
        if !inRun {
          ConsNoDoubleSpace(' ', tail);
        }
      } else {
        ConsNoDoubleSpace(s[0], tail);
      }
    }
  }

  /** Collapsing whitespace brings in no illegal character. */
  lemma {:induction false} SubRunsSpaceNoIllegal(s: string, inRun: bool)
    requires NoIllegal(s)
    ensures NoIllegal(SubRunsFrom(Space, s, inRun))
    decreases |s|
  {
    if s != [] {
      SubRunsSpaceNoIllegal(s[1..], IsSpace(s[0]));
    }
  }

  lemma {:induction false} StripNoIllegal(s: string)
    requires NoIllegal(s)
    ensures NoIllegal(Strip(s))
  {
    StripIsSlice(s);
  }

  /** A pass leaves text alone whose class characters are lone spaces. */
  lemma {:induction false} SubRunsTidy(k: CharClass, s: string, inRun: bool)
    requires forall i :: 0 <= i < |s| && InClass(k, s[i]) ==> s[i] == ' '
    requires forall i :: 0 <= i < |s| - 1 && InClass(k, s[i]) ==> !InClass(k, s[i + 1])
    requires inRun ==> s == [] || !InClass(k, s[0])
    ensures SubRunsFrom(k, s, inRun) == s
    decreases |s|
  {
    if s != [] {
      SubRunsTidy(k, s[1..], InClass(k, s[0]));
    }
  }

  lemma FallbackIsClean()
    ensures IsCleanName(Fallback)
  {
    assert forall i :: 0 <= i < |Fallback| ==> 'a' <= Fallback[i] <= 'y';
  }

  /** Collapsing the whitespace of stripped text free of illegal characters gives a clean name. */
  lemma {:induction false} CollapseIsClean(t: string)
    requires NoIllegal(t)
    requires t == [] || (!IsSpace(t[0]) && !IsSpace(t[|t| - 1]))
    ensures SubRuns(Space, t) == [] || IsCleanName(SubRuns(Space, t))
  {
    SubRunsSpaceNoIllegal(t, false);
    SubRunsSpaceSingle(t, false);
  }

  /** The sanitized name is always a clean name. */
  lemma {:induction false} SanitizeIsClean(name: string)
    ensures IsCleanName(SanitizeFolderName(name))
  {
    var first := SubRuns(Illegal, name);
    assert NoIllegal(first);
    StripNoIllegal(first);
    CollapseIsClean(Strip(first));
    FallbackIsClean();
  }

  /** A clean name is its own sanitized form. */
  lemma {:induction false} SanitizeClean(name: string)
    requires IsCleanName(name)
    ensures SanitizeFolderName(name) == name
  {
    SubRunsTidy(Illegal, name, false);
    StripUnpadded(name);
    SubRunsTidy(Space, name, false);
  }

  /** Sanitizing twice is sanitizing once. */
  lemma {:induction false} SanitizeIdempotent(name: string)
    ensures SanitizeFolderName(SanitizeFolderName(name)) == SanitizeFolderName(name)
  {
    SanitizeIsClean(name);
    SanitizeClean(SanitizeFolderName(name));
  }

  /** The characters no pass touches survive in the sanitized name, in order. */
  lemma {:induction false} SanitizeKeepsText(name: string)
    requires Kept(name) != []
    ensures Kept(SanitizeFolderName(name)) == Kept(name)
  {
    var first := SubRuns(Illegal, name);
    var stripped := Strip(first);
    SubRunsKept(Illegal, name, false);
    StripKept(first);
    SubRunsKept(Space, stripped, false);
  }

  /** A name made only of illegal and whitespace characters becomes "playlist". */
  lemma {:induction false} SanitizeFallback(name: string)
    requires Kept(name) == []
    ensures SanitizeFolderName(name) == Fallback
  {
    var first := SubRuns(Illegal, name);
    var stripped := Strip(first);
    var collapsed := SubRuns(Space, stripped);
    SubRunsKept(Illegal, name, false);
    StripKept(first);
    SubRunsKept(Space, stripped, false);
    assert NoIllegal(first);
    StripNoIllegal(first);
    SubRunsSpaceNoIllegal(stripped, false);
    NothingKeptStartsWithSpace(collapsed);
  }

  /** Text with no illegal character and nothing kept is empty or starts with whitespace. */
  lemma NothingKeptStartsWithSpace(s: string)
    requires NoIllegal(s) && Kept(s) == []
    ensures s == [] || IsSpace(s[0])
  {
  }
}
