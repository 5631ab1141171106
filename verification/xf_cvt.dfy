/**
 * The choices the X11 client makes for the hardware decoder: which display
 * and offset a direct blit goes to, which operation mode the decoder runs
 * in, how the platform's command-line options are validated, and where
 * each monitor sits on the desktop.
 */
module XfCvt {
  import opened Common
  import opened CvtLayout

  // -----------------------------------------------------------------------
  // Direct blit target (xf_cvt_set_direct_blit)
  // -----------------------------------------------------------------------

  /** Where a direct blit is sent: the display and the point on that display's screen. */
  datatype BlitTarget = BlitTarget(display: nat, x: u32, y: u32)

  /**
   * xf_cvt_set_direct_blit: on the second half of a dual desktop the screen
   * width (side by side) or height (stacked) is taken off the coordinate;
   * everywhere else the coordinates pass through.
   */
  function DirectBlit(layout: u8, destLeft: u16, destTop: u16, width: u16, height: u16): (r: BlitTarget)
    ensures r.display == DecodeDisplay(layout, destLeft, destTop, width, height)
    ensures var o := Origin(layout, r.display, width, height);
      r.x as int + o.0 == destLeft as int && r.y as int + o.1 == destTop as int
  {
    if layout == MON_LAYOUT_S0 || layout == MON_LAYOUT_CLONE then BlitTarget(0, destLeft, destTop)
    else if layout == MON_LAYOUT_S1 then BlitTarget(1, destLeft, destTop)
    else if layout == MON_LAYOUT_L0_R1 then
      (if destLeft < width then BlitTarget(0, destLeft, destTop) else BlitTarget(1, destLeft - width, destTop))
    else if layout == MON_LAYOUT_L1_R0 then
      (if destLeft < width then BlitTarget(1, destLeft, destTop) else BlitTarget(0, destLeft - width, destTop))
    else if layout == MON_LAYOUT_T0_B1 then
      (if destTop < height then BlitTarget(0, destLeft, destTop) else BlitTarget(1, destLeft, destTop - height))
    else if layout == MON_LAYOUT_T1_B0 then
      (if destTop < height then BlitTarget(1, destLeft, destTop) else BlitTarget(0, destLeft, destTop - height))
    else BlitTarget(0, destLeft, destTop)
  }

  // -----------------------------------------------------------------------
  // Operation mode (xf_cvt_codec_context_create)
  // -----------------------------------------------------------------------

  const SERVER_TYPE_RDSH: u8 := 0x00
  const SERVER_TYPE_RDVH: u8 := 0x01

  const RDSH: int := 0
  const RDSH_OPT: int := 1
  const RDVH: int := 2
  const RDVH_OPT: int := 3

  /**
   * The server type: a server that announced the frame-acknowledge
   * capability is taken for a virtualisation host, any other for a session
   * host.
   */
  function ServerType(frameAcknowledge: bool): (t: u8)
    ensures t == SERVER_TYPE_RDVH <==> frameAcknowledge
    ensures t == SERVER_TYPE_RDSH <==> !frameAcknowledge
  {
    if frameAcknowledge then SERVER_TYPE_RDVH else SERVER_TYPE_RDSH
  }

  /**
   * The operation mode once the codec context is created, from the mode
   * given on the command line (0 auto, 1 disable, 2 enable optimisation).
   * Without RemoteFX the mode is left as it was.
   */
  function OpMode(rfxCodec: bool, serverMode: bool, frameAcknowledge: bool, opmode: int): (m: int)
    ensures rfxCodec ==> RDSH <= m <= RDVH_OPT
    ensures !rfxCodec ==> m == opmode
  {
    if !rfxCodec then opmode
    else if serverMode then
      (if opmode == 0 || opmode == 1 then RDSH else RDSH_OPT)
    else if ServerType(frameAcknowledge) == SERVER_TYPE_RDSH then
      (if opmode == 0 || opmode == 2 then RDSH_OPT else RDSH)
    else
      (if opmode == 2 then RDVH_OPT else RDVH)
  }

  /**
   * What the chosen mode means: the virtualisation-host modes are chosen
   * exactly for a server with frame acknowledgement outside server mode;
   * optimisation is on exactly when it was asked for, or left to auto on
   * a session host, or in server mode anything but auto or disable.
   */
  lemma {:induction false} OpModeMeaning(serverMode: bool, frameAcknowledge: bool, opmode: int)
    ensures var m := OpMode(true, serverMode, frameAcknowledge, opmode);
      ((m == RDVH || m == RDVH_OPT) <==> !serverMode && frameAcknowledge) &&
      ((m == RDSH_OPT || m == RDVH_OPT) <==>
        (if serverMode then opmode != 0 && opmode != 1
         else opmode == 2 || (opmode == 0 && !frameAcknowledge)))
  {
  }

  // -----------------------------------------------------------------------
  // Command-line options (xf_platform_process_args)
  // -----------------------------------------------------------------------

  /** The settings the platform options write. */
  datatype CvtSettings = CvtSettings(opmode: int, numMonitors: int, monitorLayout: u8, hwCryptoEng: bool, fbNum: u8)

  /** Option handling: a parse failure, or the number of arguments consumed (0 for an option this platform does not know). */
  datatype ArgResult = Failure | Consumed(n: nat)

  /**
   * xf_platform_process_args. Each valued option stores the atoi of its
   * value first and then checks it, so a rejected value is still left in
   * the settings.
   */
  function ProcessArgs(s: CvtSettings, opt: string, val: Option<string>): (r: (ArgResult, CvtSettings))
    ensures opt == "--rfx-cvt-opt" ==>
      (val.None? ==> r == (Failure, s)) &&
      (val.Some? ==> r.1 == s.(opmode := Atoi(val.value)) &&
                     (r.0 == Consumed(2) <==> 0 <= Atoi(val.value) <= 2) &&
                     r.0 in {Failure, Consumed(2)})
    ensures opt == "-nm" ==>
      (val.None? ==> r == (Failure, s)) &&
      (val.Some? ==> r.1 == s.(numMonitors := Atoi(val.value)) &&
                     (r.0 == Consumed(2) <==> Atoi(val.value) in {1, 2}) &&
                     r.0 in {Failure, Consumed(2)})
    ensures opt == "-lm" ==>
      (val.None? ==> r == (Failure, s)) &&
      (val.Some? ==> r.1 == s.(monitorLayout := Trunc8(Atoi(val.value))) &&
                     (r.0 == Consumed(2) <==> r.1.monitorLayout <= MON_LAYOUT_CLONE) &&
                     r.0 in {Failure, Consumed(2)})
    ensures opt == "-fb" ==>
      (val.None? ==> r == (Failure, s)) &&
      (val.Some? ==> r == (Consumed(2), s.(fbNum := Trunc8(Atoi(val.value)))))
    ensures opt == "--hw-crypto-eng" ==> r == (Consumed(1), s.(hwCryptoEng := true))
    ensures opt !in {"--rfx-cvt-opt", "-nm", "-lm", "-fb", "--hw-crypto-eng"} ==> r == (Consumed(0), s)
  {
    if opt == "--rfx-cvt-opt" then
      if val.None? then (Failure, s)
      else
        var s' := s.(opmode := Atoi(val.value));
        if s'.opmode > 2 || s'.opmode < 0 then (Failure, s') else (Consumed(2), s')
    else if opt == "-nm" then
      if val.None? then (Failure, s)
      else
        var s' := s.(numMonitors := Atoi(val.value));
        if s'.numMonitors != 2 && s'.numMonitors != 1 then (Failure, s') else (Consumed(2), s')
    else if opt == "-lm" then
      if val.None? then (Failure, s)
      else
        var s' := s.(monitorLayout := Trunc8(Atoi(val.value)));
        if s'.monitorLayout > 6 then (Failure, s') else (Consumed(2), s')
    else if opt == "-fb" then
      if val.None? then (Failure, s)
      else (Consumed(2), s.(fbNum := Trunc8(Atoi(val.value))))
    else if opt == "--hw-crypto-eng" then (Consumed(1), s.(hwCryptoEng := true))
    else (Consumed(0), s)
  }

  /** Settings the decoder can run with: a known mode request, one or two monitors and a known layout. */
  predicate Usable(s: CvtSettings)
  {
    0 <= s.opmode <= 2 && 1 <= s.numMonitors <= 2 && s.monitorLayout <= MON_LAYOUT_CLONE
  }

  /**
   * Options that are accepted keep usable settings usable, and the value
   * written is the one the text spells: any decimal number in range is
   * taken as it is.
   */
  lemma {:induction false} AcceptedArgsKeepUsable(s: CvtSettings, opt: string, val: Option<string>, n: nat)
    requires Usable(s)
    ensures ProcessArgs(s, opt, val).0 != Failure ==> Usable(ProcessArgs(s, opt, val).1)
    ensures n <= 2 ==> ProcessArgs(s, "--rfx-cvt-opt", Some(Decimal(n))) == (Consumed(2), s.(opmode := n))
    ensures 1 <= n <= 2 ==> ProcessArgs(s, "-nm", Some(Decimal(n))) == (Consumed(2), s.(numMonitors := n))
    ensures n <= 6 ==> ProcessArgs(s, "-lm", Some(Decimal(n))) == (Consumed(2), s.(monitorLayout := n))
  {
    AtoiDecimal(n, "");
    assert Decimal(n) + "" == Decimal(n);
  }

  /**
   * The layout is stored in eight bits before it is checked, so a layout
   * number 256 too large is taken for a valid one.
   */
  lemma LayoutStoredInEightBits(s: CvtSettings)
    ensures ProcessArgs(s, "-lm", Some(Decimal(258))) == (Consumed(2), s.(monitorLayout := MON_LAYOUT_L0_R1))
  {
    AtoiDecimal(258, "");
    assert Decimal(258) + "" == Decimal(258);
  }

  /** The options the help text lists. */
  const HelpOptions: seq<string> := ["--rfx-cvt-opt", "--nm", "--lm", "--hw-crypto-eng"]

  /**
   * The help text lists the monitor options as --nm and --lm, but the
   * handler only knows -nm and -lm: the documented spelling is passed over
   * as an option of some other platform, and the monitor count is not set.
   */
  lemma DocumentedMonitorOptionIgnored(s: CvtSettings)
    ensures "--nm" in HelpOptions
    ensures ProcessArgs(s, "--nm", Some("2")) == (Consumed(0), s)
  {
  }

  /** The spelling the handler expects for an option the help text lists. */
  function Spelling(opt: string): string
  {
    if opt == "--nm" then "-nm" else if opt == "--lm" then "-lm" else opt
  }

  /** Option handling that also takes the spellings the help text documents. */
  function ProcessArgsDocumented(s: CvtSettings, opt: string, val: Option<string>): (r: (ArgResult, CvtSettings))
    ensures opt != "--nm" && opt != "--lm" ==> r == ProcessArgs(s, opt, val)
  {
    ProcessArgs(s, Spelling(opt), val)
  }

  /**
   * Every option the help text lists is recognised: it fails on a bad or
   * missing value or consumes its arguments, and never falls through as
   * unknown. The documented monitor options act as the short ones do.
   */
  lemma {:induction false} DocumentedOptionsRecognised(s: CvtSettings, k: nat, val: Option<string>)
    requires k < |HelpOptions|
    ensures ProcessArgsDocumented(s, HelpOptions[k], val).0 != Consumed(0)
    ensures ProcessArgsDocumented(s, "--nm", val) == ProcessArgs(s, "-nm", val)
    ensures ProcessArgsDocumented(s, "--lm", val) == ProcessArgs(s, "-lm", val)
  {
    assert Spelling(HelpOptions[k]) in {"--rfx-cvt-opt", "-nm", "-lm", "--hw-crypto-eng"};
  }

  // -----------------------------------------------------------------------
  // Monitor geometry (xf_cvt_detect_monitors)
  // -----------------------------------------------------------------------

  datatype Monitor = Monitor(x: int, y: int, width: int, height: int, isPrimary: bool)

  /** The monitors and the size of the whole desktop. */
  datatype Desktop = Desktop(monitors: seq<Monitor>, width: int, height: int)

  /** Monitor i: stacked layouts put it i screens down, every other layout i screens across. */
  function MonitorAt(layout: u8, i: nat, width: int, height: int): (m: Monitor)
    ensures m.width == width && m.height == height
    ensures m.isPrimary <==> i == 0
  {
    if Stacked(layout) then Monitor(0, i * height, width, height, i == 0)
    else Monitor(i * width, 0, width, height, i == 0)
  }

  /**
   * xf_cvt_detect_monitors: every monitor has the size of the screen; the
   * desktop is that many screens high for stacked layouts, else that many
   * screens wide.
   */
  function DetectMonitors(layout: u8, numMonitors: int, width: int, height: int): (d: Desktop)
    ensures |d.monitors| == if numMonitors > 0 then numMonitors else 0
    ensures forall i :: 0 <= i < |d.monitors| ==> d.monitors[i] == MonitorAt(layout, i, width, height)
    ensures Stacked(layout) ==> d.width == width && d.height == height * numMonitors
    ensures !Stacked(layout) ==> d.width == width * numMonitors && d.height == height
  {
    var n := if numMonitors > 0 then numMonitors else 0;
    var ms := seq(n, i requires 0 <= i < n => MonitorAt(layout, i, width, height));
    if Stacked(layout) then Desktop(ms, width, height * numMonitors)
    else Desktop(ms, width * numMonitors, height)
  }

  predicate OnMonitor(m: Monitor, px: int, py: int)
  {
    m.x <= px < m.x + m.width && m.y <= py < m.y + m.height
  }

  /**
   * The monitors tile the desktop: each point of the desktop lies on
   * exactly one monitor, the one whose index is the point's coordinate
   * divided by the screen size along the layout's direction.
   */
  lemma {:induction false} MonitorsTileDesktop(layout: u8, numMonitors: int, width: int, height: int, px: int, py: int, i: nat)
    requires width > 0 && height > 0
    requires var d := DetectMonitors(layout, numMonitors, width, height);
      0 <= px < d.width && 0 <= py < d.height && i < |d.monitors|
    ensures var d := DetectMonitors(layout, numMonitors, width, height);
      OnMonitor(d.monitors[i], px, py) <==>
        (if Stacked(layout) then i * height <= py < (i + 1) * height else i * width <= px < (i + 1) * width)
  {
  }

  /** Each point of the desktop lies on some monitor. */
  lemma {:induction false} DesktopCovered(layout: u8, numMonitors: int, width: int, height: int, px: int, py: int)
    requires width > 0 && height > 0
    requires var d := DetectMonitors(layout, numMonitors, width, height);
      0 <= px < d.width && 0 <= py < d.height
    ensures var d := DetectMonitors(layout, numMonitors, width, height);
      exists i :: 0 <= i < |d.monitors| && OnMonitor(d.monitors[i], px, py)
  {
    var d := DetectMonitors(layout, numMonitors, width, height);
    var i: nat;
    if Stacked(layout) {
      i := SlotOf(py, height, numMonitors);
    } else {
      i := SlotOf(px, width, numMonitors);
    }
    assert OnMonitor(d.monitors[i], px, py);
  }

  /** The screen-sized slot, among n in a row, that a coordinate falls in. */
  lemma {:induction false} SlotOf(p: int, size: int, n: int) returns (i: nat)
    requires size > 0 && 0 <= p < size * n
    ensures i < n && i * size <= p < (i + 1) * size
    decreases n
  {
    if p < size * (n - 1) {
      i := SlotOf(p, size, n - 1);
    } else {
      i := n - 1;
    }
  }

  /**
   * The direct blit and the desktop agree: on a two-monitor side-by-side or
   * stacked desktop, the blit's coordinates are the destination point
   * measured from the corner of the monitor the point lies on.
   */
  lemma {:induction false} DirectBlitOnMonitor(layout: u8, destLeft: u16, destTop: u16, width: u16, height: u16)
    requires SideBySide(layout) || Stacked(layout)
    requires width > 0 && height > 0
    requires var d := DetectMonitors(layout, 2, width as int, height as int);
      destLeft < d.width && destTop < d.height
    ensures var d := DetectMonitors(layout, 2, width as int, height as int);
      var b := DirectBlit(layout, destLeft, destTop, width, height);
      exists i :: 0 <= i < 2 && OnMonitor(d.monitors[i], destLeft as int, destTop as int) &&
        b.x as int == destLeft as int - d.monitors[i].x && b.y as int == destTop as int - d.monitors[i].y
  {
    var d := DetectMonitors(layout, 2, width as int, height as int);
    var i := if SideBySide(layout) then (if destLeft < width then 0 else 1) else (if destTop < height then 0 else 1);
    assert OnMonitor(d.monitors[i], destLeft as int, destTop as int);
  }
}
