/**
 * The answers `main` of playlist.py reads before downloading: `prompt`'s
 * blank-means-default rule and the clamping of the worker and fragment
 * counts, where text that is not an integer falls back to the default.
 */
module Settings {
  import opened Wrappers
  import opened PyText

  /** `prompt(text, default)` given the line typed: the stripped answer, else the default, else "". */
  function Prompt(line: string, default: Option<string>): string {
    var v := Strip(line);
    if v != [] then v
    else match default
      case Some(d) => d
      case None => ""
  }

  /** `max(4, os.cpu_count() or 4)`; `None` is a CPU count Python could not determine. */
  function DefaultWorkers(cpu: Option<nat>): nat {
    var c := match cpu case Some(n) => if n != 0 then n else 4 case None => 4;
    if c < 4 then 4 else c
  }

  /** `max(1, int(text))`, or `fallback` when `int` raises `ValueError`. */
  function ClampCount(text: string, fallback: nat): nat {
    match ParseInt(text)
    case Some(v) => if v < 1 then 1 else v
    case None => fallback
  }

  const DefaultFrags: nat := 4

  /** The number of parallel video downloads, from the answer to its prompt. */
  function Workers(line: string, cpu: Option<nat>): nat {
    var d := DefaultWorkers(cpu);
    ClampCount(Prompt(line, Some(IntToString(d))), d)
  }

  /** The number of concurrent fragments per video, from the answer to its prompt. */
  function Frags(line: string): nat {
    ClampCount(Prompt(line, Some("4")), DefaultFrags)
  }

  // ---------------------------------------------------------------- properties

  /**
   * The default is at least 4: the CPU count when that is larger, and exactly
   * 4 when the count is unknown, zero or smaller.
   */
  lemma DefaultWorkersBound(cpu: Option<nat>)
    ensures DefaultWorkers(cpu) >= 4
    ensures cpu.Some? && cpu.value >= 4 ==> DefaultWorkers(cpu) == cpu.value
    ensures cpu.None? || cpu.value <= 4 ==> DefaultWorkers(cpu) == 4
  {
  }

  /** A clamped count is an integer answer raised to 1, or the fallback for anything else. */
  lemma ClampCountCases(text: string, fallback: nat)
    ensures ParseInt(text).Some? ==> ClampCount(text, fallback) >= 1
    ensures ParseInt(text).Some? && ParseInt(text).value >= 1 ==> ClampCount(text, fallback) == ParseInt(text).value
    ensures ParseInt(text).Some? && ParseInt(text).value < 1 ==> ClampCount(text, fallback) == 1
    ensures ParseInt(text).None? ==> ClampCount(text, fallback) == fallback
    ensures fallback >= 1 ==> ClampCount(text, fallback) >= 1
  {
  }

  /** Both counts are always at least 1. */
  lemma CountsPositive(workersLine: string, cpu: Option<nat>, fragsLine: string)
    ensures Workers(workersLine, cpu) >= 1
    ensures Frags(fragsLine) >= 1
  {
    var d := DefaultWorkers(cpu);
    DefaultWorkersBound(cpu);
    ClampCountCases(Prompt(workersLine, Some(IntToString(d))), d);
    ClampCountCases(Prompt(fragsLine, Some("4")), DefaultFrags);
  }

  /** A typed integer `i` is used as `max(1, i)`, whatever the default. */
  lemma ClampTyped(i: int, default: Option<string>, fallback: nat)
    ensures ClampCount(Prompt(IntToString(i), default), fallback) == if i < 1 then 1 else i
  {
    StripUnpadded(IntToString(i));
    ParseIntToString(i);
  }

  /** A blank answer keeps the default worker count. */
  lemma WorkersBlank(line: string, cpu: Option<nat>)
    requires AllSpace(line)
    ensures Workers(line, cpu) == DefaultWorkers(cpu)
  {
    var d := DefaultWorkers(cpu);
    DefaultWorkersBound(cpu);
    ParseIntToString(d);
  }

  /** A blank answer keeps 4 fragments. */
  lemma FragsBlank(line: string)
    requires AllSpace(line)
    ensures Frags(line) == DefaultFrags
  {
    assert NatToString(4) == "4";
    ParseIntNat(4);
  }
}
