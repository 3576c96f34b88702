/**
 * The HID feature report that switches the keyboard's lighting mode.
 *
 * The service always sends exactly REPORT_LENGTH = 256 bytes: report id 0x07,
 * then 0x01, then the mode byte (0x01 while the host is active, 0x02 while it
 * is idle), then 0x01, then 252 zero bytes.
 */
module Report {
  import opened Wrappers

  newtype byte = x: int | 0 <= x < 256

  const ReportLength: nat := 256
  const ReportId: byte := 0x07
  const ActiveMode: byte := 0x01
  const IdleMode: byte := 0x02

  /** The report built in the main loop for a transition or a reconnection probe. */
  function BuildReport(active: bool): (r: seq<byte>)
    ensures |r| == ReportLength
    ensures r[0] == ReportId && r[1] == 0x01 && r[3] == 0x01
    ensures r[2] == if active then ActiveMode else IdleMode
    ensures forall i :: 4 <= i < |r| ==> r[i] == 0
  {
    var header: seq<byte> := if active then [0x07, 0x01, 0x01, 0x01] else [0x07, 0x01, 0x02, 0x01];
    header + seq(ReportLength - 4, _ => 0)
  }

  /** What a device reads from a report: the requested mode, or None for any other byte string. */
  function DecodeMode(r: seq<byte>): (m: Option<bool>)
    ensures m.Some? ==> |r| == ReportLength && r[2] in {ActiveMode, IdleMode}
  {
    if |r| == ReportLength && r[0] == ReportId && r[1] == 0x01 && r[3] == 0x01
       && (r[2] == ActiveMode || r[2] == IdleMode)
       && forall i :: 4 <= i < |r| ==> r[i] == 0
    then Some(r[2] == ActiveMode)
    else None
  }

  /** Every built report decodes to the state it was built for. */
  lemma DecodeBuild(active: bool)
    ensures DecodeMode(BuildReport(active)) == Some(active)
  {
  }

  /** Conversely, the only byte strings that decode at all are the two built reports. */
  lemma DecodeOnlyBuilt(r: seq<byte>, active: bool)
    requires DecodeMode(r) == Some(active)
    ensures r == BuildReport(active)
  {
    var b := BuildReport(active);
    assert |r| == |b|;
    forall i | 0 <= i < |r| ensures r[i] == b[i] {
    }
  }
}
