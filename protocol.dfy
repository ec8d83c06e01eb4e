/** internal/protocol.go: the layout of an upstream query name. */
module Protocol {
  import Text

  /** The zone every name built here lies in, with its leading separator. */
  const ZoneSuffix: string := ".aura.net."

  /** `BuildQueryName`: `nonce-seq-session.label.aura.net.` */
  function BuildQueryName(nonce: string, seqText: string, sessionID: string, dataLabel: string): string
  {
    nonce + "-" + seqText + "-" + sessionID + "." + dataLabel + ZoneSuffix
  }

  /** Helper: the zone suffix holds exactly three separators. */
  lemma ZoneSuffixDots()
    ensures Text.Count(ZoneSuffix, '.') == 3
  {
    assert ZoneSuffix == "." + ("aura" + ("." + ("net" + ".")));
    Text.NoSepCount("aura", '.');
    Text.NoSepCount("net", '.');
    Text.CountConcat(".", "aura" + ("." + ("net" + ".")), '.');
    Text.CountConcat("aura", "." + ("net" + "."), '.');
    Text.CountConcat(".", "net" + ".", '.');
    Text.CountConcat("net", ".", '.');
    assert Text.Count(".", '.') == 1 by { assert "."[1..] == ""; }
  }

  /**
   * A built name is absolute, lies in `aura.net.`, and has at least four dots,
   * so splitting it on `.` gives at least five pieces.
   */
  lemma BuildQueryNameShape(nonce: string, seqText: string, sessionID: string, dataLabel: string)
    ensures var name := BuildQueryName(nonce, seqText, sessionID, dataLabel);
      Text.HasSuffix(name, ZoneSuffix) && name[|name| - 1] == '.' && |Text.Split(name, '.')| >= 5
  {
    var head := nonce + "-" + seqText + "-" + sessionID;
    var tail := dataLabel + ZoneSuffix;
    var name := BuildQueryName(nonce, seqText, sessionID, dataLabel);
    assert name == head + ("." + tail);
    Text.CountConcat(head, "." + tail, '.');
    Text.CountConcat(".", tail, '.');
    Text.CountConcat(dataLabel, ZoneSuffix, '.');
    assert Text.Count(".", '.') == 1 by { assert "."[1..] == ""; }
    ZoneSuffixDots();
    assert name[|name| - |ZoneSuffix|..] == ZoneSuffix;
  }
}
