/**
 * Monitor layouts of the hardware decoder (cvt_ioctl.h) and the choice of
 * the display that a destination point lands on. The decoder's tileset
 * set-up and the client's direct blit make this choice separately; both
 * are checked against the same geometry here.
 */
module CvtLayout {
  import opened Common

  const MON_LAYOUT_S0: u8 := 0     // single monitor on display 0
  const MON_LAYOUT_S1: u8 := 1     // single monitor on display 1
  const MON_LAYOUT_L0_R1: u8 := 2  // display 0 left, display 1 right
  const MON_LAYOUT_L1_R0: u8 := 3  // display 1 left, display 0 right
  const MON_LAYOUT_T0_B1: u8 := 4  // display 0 on top, display 1 below
  const MON_LAYOUT_T1_B0: u8 := 5  // display 1 on top, display 0 below
  const MON_LAYOUT_CLONE: u8 := 6  // both displays show the same picture

  /** The desktop is two screens side by side. */
  predicate SideBySide(layout: u8)
  {
    layout == MON_LAYOUT_L0_R1 || layout == MON_LAYOUT_L1_R0
  }

  /** The desktop is two screens one above the other. */
  predicate Stacked(layout: u8)
  {
    layout == MON_LAYOUT_T0_B1 || layout == MON_LAYOUT_T1_B0
  }

  /** The display showing the left or top half of a dual desktop. */
  function FirstHalf(layout: u8): nat
  {
    if layout == MON_LAYOUT_L0_R1 || layout == MON_LAYOUT_T0_B1 then 0 else 1
  }

  /**
   * Where display d's picture starts on the desktop: the display showing
   * the second half of a dual desktop starts one screen width (or height)
   * in; every other display starts at the desktop origin.
   */
  function Origin(layout: u8, d: nat, width: int, height: int): (int, int)
  {
    if SideBySide(layout) && d != FirstHalf(layout) then (width, 0)
    else if Stacked(layout) && d != FirstHalf(layout) then (0, height)
    else (0, 0)
  }

  /**
   * rfx_cvt_setup_decode_st: the display a tileset is decoded for, from the
   * monitor layout, the destination point and the size of one screen.
   */
  function DecodeDisplay(layout: u8, destLeft: u16, destTop: u16, width: u16, height: u16): (d: nat)
    ensures d < 2
    ensures SideBySide(layout) ==> (d == FirstHalf(layout) <==> destLeft < width)
    ensures Stacked(layout) ==> (d == FirstHalf(layout) <==> destTop < height)
    ensures layout == MON_LAYOUT_S1 ==> d == 1
    ensures !SideBySide(layout) && !Stacked(layout) && layout != MON_LAYOUT_S1 ==> d == 0
  {
    if layout == MON_LAYOUT_S0 || layout == MON_LAYOUT_CLONE then 0
    else if layout == MON_LAYOUT_S1 then 1
    else if layout == MON_LAYOUT_L0_R1 then (if destLeft < width then 0 else 1)
    else if layout == MON_LAYOUT_L1_R0 then (if destLeft < width then 1 else 0)
    else if layout == MON_LAYOUT_T0_B1 then (if destTop < height then 0 else 1)
    else if layout == MON_LAYOUT_T1_B0 then (if destTop < height then 1 else 0)
    else 0
  }

  /**
   * The chosen display is the one whose screen holds the destination point:
   * for a point on a dual desktop, it lies within one screen of the
   * display's origin.
   */
  lemma {:induction false} DecodeDisplayHoldsPoint(layout: u8, destLeft: u16, destTop: u16, width: u16, height: u16)
    requires SideBySide(layout) ==> destLeft < 2 * width
    requires Stacked(layout) ==> destTop < 2 * height
    ensures var d := DecodeDisplay(layout, destLeft, destTop, width, height);
            var o := Origin(layout, d, width, height);
            o.0 <= destLeft && o.1 <= destTop &&
            (SideBySide(layout) ==> destLeft < o.0 + width) &&
            (Stacked(layout) ==> destTop < o.1 + height)
  {
  }
}
