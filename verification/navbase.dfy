/** `rinexnav`: the RINEX version the version-line reader found selects the reader. */
module NavBase {
  import opened Wrappers
  import opened ODicts
  import opened Epochs
  import opened NavData
  import Nav2
  import Nav3

  /** Version 2 goes to the RINEX 2 reader (which takes no system filter), version 3 to the
      RINEX 3 reader, and any other version raises LookupError. */
  function RinexNav(version: int, info: map<string, string>, lines: seq<string>, use: Option<seq<string>>,
                    tlim: Option<(DateTime, DateTime)>, subsec: string -> Option<int>): (r: Result<Parsed>)
    ensures version != 2 && version != 3 ==> r == Err(LookupError)
  {
    if version == 2 then Nav2.Nav2(info, lines, tlim, subsec)
    else if version == 3 then Nav3.Nav3(info, lines, use, tlim)
    else Err(LookupError)
  }

  /** Whichever reader runs, a file that reads without error yields well-formed dictionaries,
      and every coefficient token has the form `[- ]digits.digitsE[+-]digits`. */
  lemma RinexNavShapes(version: int, info: map<string, string>, lines: seq<string>, use: Option<seq<string>>,
                       tlim: Option<(DateTime, DateTime)>, subsec: string -> Option<int>)
    requires RinexNav(version, info, lines, use, tlim, subsec).Ok?
    ensures version == 2 || version == 3
    ensures WellFormed(RinexNav(version, info, lines, use, tlim, subsec).value)
    ensures TokensShaped(RinexNav(version, info, lines, use, tlim, subsec).value.data)
  {
    var e: Data := Empty();
    assert DataValid(e) && TokensShaped(e);
    if version == 2 {
      var h := Nav2.HeaderFrom(lines, 0, InfoHeader(info));
      Nav2.HeaderText(lines, 0, InfoHeader(info));
      var su := Nav2.Setup(Nav2.SvType(h.0).value, Nav2.ExtraLines(h.0), tlim, subsec);
      Nav2.ReadShapes(lines, h.1, su, e);
    } else {
      var h := Nav3.HeaderFrom(lines, 0, InfoHeader(info)).value;
      Nav3.HeaderTables(lines, 0, InfoHeader(info));
      Nav3.ReadShapes(lines, h.1, use, tlim, e);
    }
  }
}
