/** The text judgements of the quarantine decision: race markers and recorded signatures. */
module RaceMarkers {
  import opened Quarantine

  /** The text s holds the text m. */
  predicate Contains(s: string, m: string) {
    exists i :: 0 <= i <= |s| && m <= s[i..]
  }

  const RACE_MARKERS: seq<string> := [
    "WARNING: DATA RACE", "race detected during execution of test", "ThreadSanitizer", "AddressSanitizer",
    "UndefinedBehaviorSanitizer", "LeakSanitizer", "MemorySanitizer"]

  function FirstMarker(text: string, markers: seq<string>): string
    decreases markers
  {
    if markers == [] then "" else if Contains(text, markers[0]) then markers[0] else FirstMarker(text, markers[1..])
  }

  /** The race or sanitizer marker a text carries, or the empty string. */
  function RaceMarker(text: string): string {
    FirstMarker(text, RACE_MARKERS)
  }

  lemma {:induction false} FirstMarkerFinds(text: string, markers: seq<string>, m: string)
    requires "" !in markers
    ensures FirstMarker(text, markers) != "" ==>
              FirstMarker(text, markers) in markers && Contains(text, FirstMarker(text, markers))
    ensures m in markers && Contains(text, m) ==> FirstMarker(text, markers) != ""
    decreases markers
  {
    if markers != [] {
      FirstMarkerFinds(text, markers[1..], m);
    }
  }

  /** A text is raced exactly when it holds one of the markers. */
  lemma RacedExactly(text: string)
    ensures RaceMarker(text) != "" <==> exists m :: m in RACE_MARKERS && Contains(text, m)
  {
    FirstMarkerFinds(text, RACE_MARKERS, "");
    if m :| m in RACE_MARKERS && Contains(text, m) {
      FirstMarkerFinds(text, RACE_MARKERS, m);
    }
  }

  /** A report that quotes the marker of a raced text is itself raced. */
  lemma QuotedMarkerIsRaced(text: string, before: string)
    requires RaceMarker(text) != ""
    ensures RaceMarker(before + RaceMarker(text)) != ""
  {
    var m := RaceMarker(text);
    FirstMarkerFinds(text, RACE_MARKERS, m);
    assert (before + m)[|before|..] == m;
    assert Contains(before + m, m);
    FirstMarkerFinds(before + m, RACE_MARKERS, m);
  }

  /** The judge the program uses; only the line a parent adds of its own is left open. */
  function SourceJudge(ownFailure: (string, string, seq<string>) -> bool): Judge {
    Judge(text => RaceMarker(text), (output, sig) => Contains(output, sig), ownFailure)
  }
}
