// User preferences: "key=value" lines of prefs.txt, keys compared without
// regard to case, each recognised key overwriting one setting.

module Prefs {
  import opened Text

  /** `unsigned` holds values below 2^32. */
  const UIntLimit: nat := 0x1_0000_0000

  /**
   * The three preferences. RESIZE_FACTOR is a float in the source; its value
   * is kept here as the text it was last given (`None`: still the default
   * 4.0), since the float conversion is not modelled.
   */
  datatype Prefs = Prefs(resizeText: Option<string>, debug: bool, cacheSize: nat)

  /** RESIZE_FACTOR = 4.0, DEBUG = false, CACHE_SIZE = 100. */
  const Defaults: Prefs := Prefs(None, false, 100)

  /** `find(c)`: the position of the first occurrence of `c`, or none. */
  function FirstIndexOf(s: string, c: char): (r: Option<nat>)
    ensures r.Some? ==> r.value < |s| && s[r.value] == c && forall j :: 0 <= j < r.value ==> s[j] != c
    ensures r.None? ==> forall j :: 0 <= j < |s| ==> s[j] != c
    decreases |s|
  {
    if s == [] then None
    else if s[0] == c then Some(0)
    else match FirstIndexOf(s[1..], c)
      case None => None
      case Some(i) => Some(i + 1)
  }

  /** A line cut at its first '=' into the key before it and the value after it; none without '='. */
  function SplitSetting(line: string): (r: Option<(string, string)>)
    ensures r.Some? ==> line == r.value.0 + ['='] + r.value.1 && '=' !in r.value.0
    ensures r.None? <==> '=' !in line
  {
    match FirstIndexOf(line, '=')
    case None => None
    case Some(i) =>
      assert line == line[..i] + ['='] + line[i + 1..];
      Some((line[..i], line[i + 1..]))
  }

  /**
   * One line of `load_prefs`: a line without '=' is skipped; RESIZE_FACTOR,
   * debug_mode and cache_size (in any case) set their preference from the
   * value, and any other key is ignored. debug_mode is on when the value is
   * "yes" in any case.
   */
  function ApplyLine(p: Prefs, line: string): Prefs
  {
    match SplitSetting(line)
    case None => p
    case Some((param, value)) =>
      if IEquals(param, "RESIZE_FACTOR") then p.(resizeText := Some(value))
      else if IEquals(param, "debug_mode") then p.(debug := IEquals(value, "yes"))
      else if IEquals(param, "cache_size") then p.(cacheSize := ParseUnsigned(value, UIntLimit))
      else p
  }

  /** The line as written: the debug flag compares the key, not the value, with "yes". */
  function ApplyLineAsWritten(p: Prefs, line: string): Prefs
  {
    match SplitSetting(line)
    case None => p
    case Some((param, value)) =>
      if IEquals(param, "RESIZE_FACTOR") then p.(resizeText := Some(value))
      else if IEquals(param, "debug_mode") then p.(debug := IEquals(param, "yes"))
      else if IEquals(param, "cache_size") then p.(cacheSize := ParseUnsigned(value, UIntLimit))
      else p
  }

  /** The preferences after the lines in order. */
  function ApplyLines(p: Prefs, lines: seq<string>): Prefs
    decreases |lines|
  {
    if lines == [] then p else ApplyLine(ApplyLines(p, lines[..|lines| - 1]), lines[|lines| - 1])
  }

  /** The preferences after the lines in order, each applied as written. */
  function ApplyLinesAsWritten(p: Prefs, lines: seq<string>): Prefs
    decreases |lines|
  {
    if lines == [] then p else ApplyLineAsWritten(ApplyLinesAsWritten(p, lines[..|lines| - 1]), lines[|lines| - 1])
  }

  /**
   * `load_prefs` as written: the lines of prefs.txt, or none when it cannot
   * be opened (only an error is logged then, and every preference keeps its
   * value). A debug_mode line compares its key with "yes".
   */
  method LoadPrefs(start: Prefs, file: Option<seq<string>>) returns (p: Prefs)
    ensures file.None? ==> p == start
    ensures file.Some? ==> p == ApplyLinesAsWritten(start, file.value)
  {
    p := start;
    if file.None? {
      return;
    }
    var lines := file.value;
    var i := 0;
    while i < |lines|
      invariant 0 <= i <= |lines| && p == ApplyLinesAsWritten(start, lines[..i])
    {
      assert lines[..i + 1][..i] == lines[..i];
      var line := lines[i];
      var eqIndex := FirstIndexOf(line, '=');
      if eqIndex.Some? {
        var param := line[..eqIndex.value];
        var value := line[eqIndex.value + 1..];
        if IEquals(param, "RESIZE_FACTOR") {
          p := p.(resizeText := Some(value));
        } else if IEquals(param, "debug_mode") {
          p := p.(debug := IEquals(param, "yes"));
        } else if IEquals(param, "cache_size") {
          p := p.(cacheSize := ParseUnsigned(value, UIntLimit));
        }
      }
      i := i + 1;
    }
    assert lines[..i] == lines;
  }

  /** A key is never both "debug_mode" and "yes", whatever its case. */
  lemma DebugKeyIsNotYes(param: string)
    requires IEquals(param, "debug_mode")
    ensures !IEquals(param, "yes")
  {
    assert |param| == 10;
  }

  /** As written, no prefs file can turn debugging on. */
  lemma {:induction false} DebugNeverSetAsWritten(p: Prefs, lines: seq<string>)
    requires !p.debug
    ensures !ApplyLinesAsWritten(p, lines).debug
    decreases |lines|
  {
    if lines != [] {
      var before := ApplyLinesAsWritten(p, lines[..|lines| - 1]);
      DebugNeverSetAsWritten(p, lines[..|lines| - 1]);
      match SplitSetting(lines[|lines| - 1])
      case None =>
      case Some((param, value)) =>
        if IEquals(param, "debug_mode") {
          DebugKeyIsNotYes(param);
        }
    }
  }

  /**
   * Apart from the debug flag, the lines as written leave exactly the
   * preferences the intended reading leaves.
   */
  lemma {:induction false} AsWrittenDiffersOnlyInDebug(p: Prefs, lines: seq<string>)
    ensures ApplyLinesAsWritten(p, lines) == ApplyLines(p, lines).(debug := ApplyLinesAsWritten(p, lines).debug)
    decreases |lines|
  {
    if lines != [] {
      AsWrittenDiffersOnlyInDebug(p, lines[..|lines| - 1]);
    }
  }

  /** The line that shows it: "debug_mode=yes" leaves debugging off as written, and turns it on as intended. */
  lemma DebugLineExample()
    ensures !ApplyLineAsWritten(Defaults, "debug_mode=yes").debug
    ensures ApplyLine(Defaults, "debug_mode=yes").debug
  {
    assert "debug_mode=yes" == "debug_mode" + ['='] + "yes";
    SplitSettingOf("debug_mode", "yes");
    assert IEquals("debug_mode", "debug_mode") && IEquals("yes", "yes");
    assert !IEquals("debug_mode", "RESIZE_FACTOR");
  }

  /** A key free of '=' followed by '=' and a value is cut back into that key and that value. */
  lemma SplitSettingOf(key: string, value: string)
    requires '=' !in key
    ensures SplitSetting(key + ['='] + value) == Some((key, value))
  {
    var line := key + ['='] + value;
    assert line[|key|] == '=';
    var k := FirstIndexOf(line, '=').value;
    assert k <= |key|;
    assert forall j :: 0 <= j < |key| ==> line[j] == key[j];
    assert k == |key|;
    assert line[..k] == key;
    assert line[k + 1..] == value;
  }

  /**
   * A setting line "key=value" with a key free of '=': the value lands in the
   * setting the key names, and the other settings are left alone.
   */
  lemma SettingLine(p: Prefs, key: string, value: string)
    requires '=' !in key
    ensures var q := ApplyLine(p, key + ['='] + value);
      && (IEquals(key, "debug_mode") ==> q == p.(debug := IEquals(value, "yes")))
      && (IEquals(key, "cache_size") ==> q == p.(cacheSize := ParseUnsigned(value, UIntLimit)))
      && (IEquals(key, "RESIZE_FACTOR") ==> q == p.(resizeText := Some(value)))
      && (!IEquals(key, "debug_mode") && !IEquals(key, "cache_size") && !IEquals(key, "RESIZE_FACTOR") ==> q == p)
  {
    SplitSettingOf(key, value);
  }

  /** A cache size written in decimal is read back exactly, for every `unsigned` value. */
  lemma CacheSizeLine(p: Prefs, n: nat)
    requires n < UIntLimit
    ensures ApplyLine(p, "cache_size=" + ShowDecimal(n)).cacheSize == n
  {
    var value := ShowDecimal(n);
    assert "cache_size=" + value == "cache_size" + ['='] + value;
    assert IEquals("cache_size", "cache_size");
    SettingLine(p, "cache_size", value);
    ParseShowDecimal(n, UIntLimit);
  }

  /** Lines without '=' change nothing. */
  lemma {:induction false} NonSettingLinesIgnored(p: Prefs, lines: seq<string>)
    requires forall i :: 0 <= i < |lines| ==> '=' !in lines[i]
    ensures ApplyLines(p, lines) == p
    decreases |lines|
  {
    if lines != [] {
      NonSettingLinesIgnored(p, lines[..|lines| - 1]);
      assert SplitSetting(lines[|lines| - 1]).None?;
    }
  }
}
