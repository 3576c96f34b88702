/**
 * Display-timeout resolution (`get_display_timeout`).
 *
 * The Windows power API reads are inputs: `PrimaryOutcome` says how the
 * primary path ended. The text of `powercfg /query SCHEME_CURRENT SUB_VIDEO
 * VIDEOIDLE` and the power-line status read in the fallback are inputs too.
 */
module DisplayTimeout {
  import opened Wrappers
  import Hex

  /** 15 minutes, used when no timeout could be read. */
  const DefaultTimeoutSeconds: nat := 15 * 60

  /**
   * How the primary path ended: both power-API calls returned status 0 and
   * the monitor timeout (a DWORD, in seconds) was read; a call returned a
   * non-zero status so nothing was read; or a Python exception escaped it.
   */
  datatype PrimaryOutcome = Value(seconds: nat) | NoValue | Raised

  /** The exception that leaves `get_display_timeout`. */
  datatype TimeoutError = NameError

  /**
   * `get_display_timeout` as written. Its `except Exception:` handler begins
   * with a message that formats the unbound name `e`, so every exception from
   * the primary path becomes a NameError before the powercfg fallback runs.
   * Otherwise it returns the timeout in milliseconds, 15 minutes when none
   * was read.
   */
  function GetDisplayTimeout(primary: PrimaryOutcome): (r: Result<nat, TimeoutError>)
    ensures r.Failure? <==> primary.Raised?
    ensures r.Success? ==> r.value % 1000 == 0
    ensures primary.Value? ==> r == Success(primary.seconds * 1000)
    ensures primary.NoValue? ==> r == Success(900000)
  {
    match primary
    case Raised => Failure(NameError)
    case Value(seconds) => Success(seconds * 1000)
    case NoValue => Success(DefaultTimeoutSeconds * 1000)
  }

  /**
   * The resolver with the handler's message fixed, so that an exception from
   * the primary path reaches the powercfg fallback as the code intends.
   * `fallbackOnAc` is the power-line status the fallback reads again;
   * `stdout` is None when powercfg could not be run or exited with an error.
   */
  function GetDisplayTimeoutWithFallback(primary: PrimaryOutcome, fallbackOnAc: bool, stdout: Option<string>): (ms: nat)
    ensures ms % 1000 == 0
    ensures primary.Value? ==> ms == primary.seconds * 1000
    ensures primary.Raised? && stdout.Some? && PowercfgTimeout(stdout.value, fallbackOnAc).Some?
            ==> ms == PowercfgTimeout(stdout.value, fallbackOnAc).value * 1000
    ensures !primary.Value? && (stdout.None? || PowercfgTimeout(stdout.value, fallbackOnAc).None? || primary.NoValue?)
            ==> ms == 900000
  {
    var timeout: Option<nat> :=
      match primary
      case Value(s) => Some(s)
      case NoValue => None
      case Raised => if stdout.Some? then PowercfgTimeout(stdout.value, fallbackOnAc) else None;
    (if timeout.Some? then timeout.value else DefaultTimeoutSeconds) * 1000
  }

  /** The fixed resolver agrees with the one as written wherever the latter returns. */
  lemma FallbackAgreesWhenNoException(primary: PrimaryOutcome, fallbackOnAc: bool, stdout: Option<string>)
    requires GetDisplayTimeout(primary).Success?
    ensures GetDisplayTimeout(primary).value == GetDisplayTimeoutWithFallback(primary, fallbackOnAc, stdout)
  {
  }

  /**
   * As written, a failure of the primary path is fatal even when powercfg
   * would have reported a timeout of 0x258 seconds on mains power.
   */
  lemma FallbackUnreachable()
    ensures GetDisplayTimeout(Raised) == Failure(NameError)
    ensures GetDisplayTimeoutWithFallback(Raised, true, Some(SampleOutput)) == 600000
  {
    SampleOutputTimeout();
  }

  // ---------------------------------------------------------------------
  // The powercfg text extractor:
  //   dict(re.findall(r"(AC|DC) Setting Index: (0x[0-9a-fA-F]+)", stdout))
  // ---------------------------------------------------------------------

  const Infix: string := " Setting Index: 0x"

  /** A pattern match begins at `i`: "AC" or "DC", the infix, and at least one hex digit. */
  predicate MatchStartsAt(text: string, i: nat) {
    i + 21 <= |text|
    && (text[i..i + 2] == "AC" || text[i..i + 2] == "DC")
    && text[i + 2..i + 20] == Infix
    && Hex.IsHexDigit(text[i + 20])
  }

  /** The greedy `[0-9a-fA-F]+`: the end of the run of hex digits starting at `j`. */
  function HexRunEnd(text: string, j: nat): (e: nat)
    requires j <= |text|
    ensures j <= e <= |text|
    ensures Hex.AllHexDigits(text[j..e])
    ensures e < |text| ==> !Hex.IsHexDigit(text[e])
    decreases |text| - j
  {
    if j < |text| && Hex.IsHexDigit(text[j]) then HexRunEnd(text, j + 1) else j
  }

  predicate IsHexLiteral(v: string) {
    |v| >= 3 && v[..2] == "0x" && Hex.AllHexDigits(v[2..])
  }

  /** Where the match starting at `p` ends: after the greedy run of hex digits. */
  function MatchEnd(text: string, p: nat): (e: nat)
    requires MatchStartsAt(text, p)
    ensures p + 20 < e <= |text|
  {
    HexRunEnd(text, p + 20)
  }

  /** Position `j` lies inside the match that starts at `p`. */
  predicate Within(text: string, p: nat, j: int)
    requires MatchStartsAt(text, p)
  {
    p <= j < MatchEnd(text, p)
  }

  /**
   * The start positions of the matches `re.findall` reports when it scans
   * from position `i`: each is a match, they are in increasing order, and a
   * match is only looked for after the previous one ends. No match is
   * skipped: `MatchPositionsCover`.
   */
  function MatchPositions(text: string, i: nat): (ps: seq<nat>)
    requires i <= |text|
    ensures forall k :: 0 <= k < |ps| ==> i <= ps[k] && MatchStartsAt(text, ps[k])
    ensures forall k :: 0 <= k < |ps| - 1 ==> MatchEnd(text, ps[k]) <= ps[k + 1]
    decreases |text| - i
  {
    if i == |text| then []
    else if MatchStartsAt(text, i) then [i] + MatchPositions(text, MatchEnd(text, i))
    else MatchPositions(text, i + 1)
  }

  /** Every position from `i` on where the pattern could start lies inside a reported match. */
  lemma {:induction false} MatchPositionsCover(text: string, i: nat, j: nat)
    requires i <= j < |text| && MatchStartsAt(text, j)
    ensures var ps := MatchPositions(text, i);
            exists k :: 0 <= k < |ps| && Within(text, ps[k], j)
    decreases |text| - i
  {
    var ps := MatchPositions(text, i);
    if MatchStartsAt(text, i) {
      var e := MatchEnd(text, i);
      var rest := MatchPositions(text, e);
      assert ps == [i] + rest;
      if j < e {
        assert ps[0] == i && Within(text, i, j);
        assert exists k :: 0 <= k < |ps| && Within(text, ps[k], j);
        assert ps == MatchPositions(text, i);
      } else {
        MatchPositionsCover(text, e, j);
        var k :| 0 <= k < |rest| && Within(text, rest[k], j);
        assert ps[k + 1] == rest[k];
      }
    } else {
      MatchPositionsCover(text, i + 1, j);
    }
  }

  /** The pair `re.findall` reports for the match at `p`: the branch and the hex literal. */
  function MatchPair(text: string, p: nat): (m: (string, string))
    requires MatchStartsAt(text, p)
    ensures m.0 == "AC" || m.0 == "DC"
    ensures IsHexLiteral(m.1) && m.1[2..] == text[p + 20..MatchEnd(text, p)]
  {
    var value := "0x" + text[p + 20..MatchEnd(text, p)];
    assert value[..2] == "0x" && value[2..] == text[p + 20..MatchEnd(text, p)];
    (text[p..p + 2], value)
  }

  /**
   * `re.findall` from position `i`: the (branch, value) pairs of the
   * non-overlapping matches, left to right.
   */
  function FindSettingIndices(text: string, i: nat): (ms: seq<(string, string)>)
    requires i <= |text|
    ensures forall k :: 0 <= k < |ms| ==> (ms[k].0 == "AC" || ms[k].0 == "DC") && IsHexLiteral(ms[k].1)
    ensures ms == [] <==> forall j :: i <= j < |text| ==> !MatchStartsAt(text, j)
    ensures var ps := MatchPositions(text, i);
            |ms| == |ps| && forall k :: 0 <= k < |ms| ==> ms[k] == MatchPair(text, ps[k])
  {
    var ps := MatchPositions(text, i);
    NoMatchNoPositions(text, i);
    seq(|ps|, k requires 0 <= k < |ps| => MatchPair(text, ps[k]))
  }

  /** No match is reported exactly when the pattern occurs nowhere from `i` on. */
  lemma NoMatchNoPositions(text: string, i: nat)
    requires i <= |text|
    ensures MatchPositions(text, i) == [] <==> forall j :: i <= j < |text| ==> !MatchStartsAt(text, j)
  {
    var ps := MatchPositions(text, i);
    if ps == [] {
      forall j | i <= j < |text| ensures !MatchStartsAt(text, j) {
        if MatchStartsAt(text, j) {
          MatchPositionsCover(text, i, j);
        }
      }
    } else {
      assert MatchStartsAt(text, ps[0]);
    }
  }

  /** `dict(pairs)`: a later pair for the same key replaces an earlier one. */
  function MatchesToDict(ms: seq<(string, string)>): (d: map<string, string>)
    ensures ms == [] <==> d == map[]
    ensures ms != [] ==> ms[|ms| - 1].0 in d && d[ms[|ms| - 1].0] == ms[|ms| - 1].1
  {
    if ms == [] then map[] else MatchesToDict(ms[..|ms| - 1])[ms[|ms| - 1].0 := ms[|ms| - 1].1]
  }

  /** The branch the service reads: "AC" on mains power, "DC" on battery. */
  function BranchKey(onAc: bool): (key: string) {
    if onAc then "AC" else "DC"
  }

  /** The seconds extracted from powercfg's text, or None when no line for the branch matched. */
  function PowercfgTimeout(stdout: string, onAc: bool): (seconds: Option<nat>)
    ensures seconds.Some? <==> BranchKey(onAc) in MatchesToDict(FindSettingIndices(stdout, 0))
  {
    var matches := MatchesToDict(FindSettingIndices(stdout, 0));
    var key := BranchKey(onAc);
    if key in matches then
      var val := matches[key];
      DictValuesFrom(FindSettingIndices(stdout, 0), key);
      assert val == "0x" + val[2..];
      Hex.PrefixedValue(val[2..]);
      Hex.ParseHex(val)
    else None
  }

  /** Every value in the dictionary is the value of one of the pairs. */
  lemma {:induction false} DictValuesFrom(ms: seq<(string, string)>, key: string)
    requires key in MatchesToDict(ms)
    ensures exists k :: 0 <= k < |ms| && ms[k] == (key, MatchesToDict(ms)[key])
  {
    var init := ms[..|ms| - 1];
    if ms[|ms| - 1].0 != key {
      DictValuesFrom(init, key);
      var k :| 0 <= k < |init| && init[k] == (key, MatchesToDict(init)[key]);
      assert ms[k] == init[k];
    }
  }

  /** The dictionary has a key exactly when some pair has it. */
  lemma {:induction false} DictHasKey(ms: seq<(string, string)>, key: string)
    ensures key in MatchesToDict(ms) <==> exists k :: 0 <= k < |ms| && ms[k].0 == key
  {
    if ms != [] {
      var init := ms[..|ms| - 1];
      DictHasKey(init, key);
      assert forall k :: 0 <= k < |init| ==> init[k] == ms[k];
    }
  }

  /** Last match wins: the value kept for a key is that of the LAST pair with that key. */
  lemma {:induction false} DictKeepsLast(ms: seq<(string, string)>, key: string, k: nat)
    requires k < |ms| && ms[k].0 == key
    requires forall l :: k < l < |ms| ==> ms[l].0 != key
    ensures key in MatchesToDict(ms) && MatchesToDict(ms)[key] == ms[k].1
  {
    if k < |ms| - 1 {
      var init := ms[..|ms| - 1];
      DictKeepsLast(init, key, k);
    }
  }

  /**
   * The extractor yields a timeout exactly when some match is for the branch
   * of the current power line, and then the value of the last such match.
   */
  lemma PowercfgLastLineWins(stdout: string, onAc: bool, k: nat)
    requires var ms := FindSettingIndices(stdout, 0);
             k < |ms| && ms[k].0 == BranchKey(onAc) && forall l :: k < l < |ms| ==> ms[l].0 != BranchKey(onAc)
    ensures var ms := FindSettingIndices(stdout, 0);
            PowercfgTimeout(stdout, onAc) == Some(Hex.HexValue(ms[k].1[2..]))
  {
    var ms := FindSettingIndices(stdout, 0);
    DictKeepsLast(ms, BranchKey(onAc), k);
    assert ms[k].1 == "0x" + ms[k].1[2..];
    Hex.PrefixedValue(ms[k].1[2..]);
  }

  /**
   * The same in terms of the text: the timeout is the hex number of the last
   * match, among the positions `re.findall` reports, whose branch is that of
   * the current power line.
   */
  lemma PowercfgLastMatch(stdout: string, onAc: bool, k: nat)
    requires var ps := MatchPositions(stdout, 0);
             && k < |ps| && stdout[ps[k]..ps[k] + 2] == BranchKey(onAc)
             && forall l :: k < l < |ps| ==> stdout[ps[l]..ps[l] + 2] != BranchKey(onAc)
    ensures var p := MatchPositions(stdout, 0)[k];
            PowercfgTimeout(stdout, onAc) == Some(Hex.HexValue(stdout[p + 20..MatchEnd(stdout, p)]))
  {
    var ms := FindSettingIndices(stdout, 0);
    PowercfgLastLineWins(stdout, onAc, k);
  }

  /** No matching line for the branch means no timeout from powercfg. */
  lemma PowercfgNoLine(stdout: string, onAc: bool)
    requires forall k :: 0 <= k < |FindSettingIndices(stdout, 0)| ==> FindSettingIndices(stdout, 0)[k].0 != BranchKey(onAc)
    ensures PowercfgTimeout(stdout, onAc) == None
  {
    var ms := FindSettingIndices(stdout, 0);
    DictHasKey(ms, BranchKey(onAc));
  }

  const SampleOutput: string := "AC Setting Index: 0x258"

  /** The sample text holds one match, at position 0, whose hex run is "258". */
  lemma SampleMatches()
    ensures MatchPositions(SampleOutput, 0) == [0]
    ensures MatchStartsAt(SampleOutput, 0)
    ensures MatchEnd(SampleOutput, 0) == 23 && SampleOutput[20..23] == "258"
    ensures SampleOutput[0..2] == "AC"
  {
    var text := SampleOutput;
    assert text == "AC" + Infix + "258";
    assert text[0..2] == "AC" && text[2..20] == Infix && text[20..] == "258";
    assert MatchStartsAt(text, 0);
    assert HexRunEnd(text, 23) == 23;
    assert HexRunEnd(text, 20) == 23;
    assert MatchPositions(text, 23) == [];
  }

  /** A one-line powercfg answer on mains power yields 0x258 = 600 seconds. */
  lemma SampleOutputTimeout()
    ensures PowercfgTimeout(SampleOutput, true) == Some(600)
  {
    SampleMatches();
    PowercfgLastMatch(SampleOutput, true, 0);
    assert "258"[..2] == "25" && "25"[..1] == "2" && "2"[..0] == "";
    assert Hex.HexValue("258") == 600;
  }


}
