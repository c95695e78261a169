/**
 * The two hardware probes, on the first line their shell pipeline printed.
 * `popen` failing is `None`; otherwise the probe reads the buffer `fgets`
 * filled, which holds a NUL after the bytes read.
 */
module Probes {
  import opened Wrappers
  import opened CString

  /**
   * `detect_anything`: -2 when the pipeline cannot be started, 0 when the
   * i2cdetect row for 0x20 starts with "20", -1 otherwise.
   */
  function DetectAnything(capture: Option<string>): (r: int)
    ensures -2 <= r <= 0
    ensures r == -2 <==> capture.None?
  {
    match capture
    case None => -2
    case Some(line) => if StrNEqual(line, "20", 2) then 0 else -1
  }

  /** The probe succeeds exactly when the captured line starts with "20". */
  lemma DetectIffPrefix(line: string)
    ensures DetectAnything(Some(line)) == 0 <==> |line| >= 2 && line[..2] == "20"
  {
    StrNEqualIffPrefix(line, "20", 2);
  }

  /**
   * `wlan_ready`: -1 when the pipeline cannot be started; otherwise the
   * buffer `fgets` filled is stripped in place and searched as a C string,
   * 1 when its text contains "SSID" and 0 when it does not.
   */
  function WlanReady(capture: Option<seq<char>>): (r: int)
    requires capture.Some? ==> NUL in capture.value
    ensures -1 <= r <= 1
    ensures r == -1 <==> capture.None?
  {
    match capture
    case None => -1
    case Some(buf) => if StrStr(Text(Stripped(buf)), "SSID", 0).Some? then 1 else 0
  }

  /**
   * Stripping never hides "SSID": the probe reports 1 iff the text of the
   * buffer, up to its first NUL, contains it.
   */
  lemma WlanReadyIffSsid(buf: seq<char>)
    requires NUL in buf
    ensures WlanReady(Some(buf)) == 1 <==> exists k: nat :: OccursAt(Text(buf), "SSID", k)
  {
    var needle := "SSID";
    assert forall i | 0 <= i < |needle| :: !Blank(needle[i]);
    StrippedText(buf);
    TrimRightKeepsOccurrences(Text(buf), needle);
    var found := StrStr(TrimRight(Text(buf)), needle, 0);
    if found.Some? {
      assert OccursAt(TrimRight(Text(buf)), needle, found.value);
    }
  }

  /** Bytes after the first NUL are not searched, whatever they hold. */
  lemma WlanReadyStopsAtNul()
    ensures WlanReady(Some("\0SSID\n\0")) == 0
  {
    var buf := "\0SSID\n\0";
    assert Text(buf) == [];
    WlanReadyIffSsid(buf);
  }
}
