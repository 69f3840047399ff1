/** Viewport classification: the editable grid's breakpoint and device type,
    and the shared `ScreenSize` hook. Widths are the window's inner width in
    CSS pixels; a missing window or a non-numeric width is passed in as such. */
module Viewport {
  import opened Wrappers

  datatype Breakpoint = BpMobile | BpTablet | BpDesktop
  datatype DeviceType = DeviceMobile | DeviceDesktop
  datatype ScreenSize = ScreenMobile | ScreenTablet | ScreenDesktop

  /** What the browser reports: no window at all, or a window whose inner
      width may or may not be a number. */
  datatype Window = NoWindow | InnerWidth(width: Option<real>)

  predicate IsMobileDevice(d: DeviceType) { d == DeviceMobile }
  predicate IsDesktopDevice(d: DeviceType) { d == DeviceDesktop }

  /** The device predicates are exact complements. */
  lemma DevicePredicatesComplement(d: DeviceType)
    ensures IsMobileDevice(d) <==> !IsDesktopDevice(d)
  {
  }

  function BreakpointRank(b: Breakpoint): nat {
    match b
    case BpMobile => 0
    case BpTablet => 1
    case BpDesktop => 2
  }

  /** The grid's breakpoint for a width: under 640 is mobile, under 1024 tablet, else desktop. */
  function BreakpointOf(width: real): (b: Breakpoint)
    ensures b == BpMobile <==> width < 640.0
    ensures b == BpTablet <==> 640.0 <= width < 1024.0
    ensures b == BpDesktop <==> 1024.0 <= width
  {
    if width < 640.0 then BpMobile else if width < 1024.0 then BpTablet else BpDesktop
  }

  /** The grid's device type: anything narrower than 1024 is mobile. */
  function DeviceTypeOf(width: real): (d: DeviceType)
    ensures d == DeviceMobile <==> width < 1024.0
  {
    if width < 1024.0 then DeviceMobile else DeviceDesktop
  }

  /** The device is mobile exactly when the breakpoint is not desktop. */
  lemma DeviceMatchesBreakpoint(width: real)
    ensures DeviceTypeOf(width) == DeviceMobile <==> BreakpointOf(width) != BpDesktop
  {
  }

  /** A wider window never gets a smaller breakpoint. */
  lemma BreakpointMonotone(w1: real, w2: real)
    requires w1 <= w2
    ensures BreakpointRank(BreakpointOf(w1)) <= BreakpointRank(BreakpointOf(w2))
  {
  }

  /** Both signals of the grid's responsive hook. */
  datatype Layout = Layout(breakpoint: Breakpoint, device: DeviceType)

  /** The hook's signals start at desktop. */
  function InitialLayout(): (l: Layout)
    ensures l.breakpoint == BpDesktop && IsDesktopDevice(l.device)
  {
    Layout(BpDesktop, DeviceDesktop)
  }

  /** `update_breakpoint`: without a window nothing changes; a non-numeric width counts as 1024. */
  function UpdateBreakpoint(current: Layout, window: Window): (l: Layout)
    ensures window.NoWindow? ==> l == current
    ensures window.InnerWidth? ==> l.breakpoint == BreakpointOf(window.width.UnwrapOr(1024.0))
    ensures window.InnerWidth? ==> l.device == DeviceTypeOf(window.width.UnwrapOr(1024.0))
    ensures window == InnerWidth(None) ==> l == InitialLayout()
  {
    match window
    case NoWindow => current
    case InnerWidth(w) =>
      var width := w.UnwrapOr(1024.0);
      Layout(BreakpointOf(width), DeviceTypeOf(width))
  }

  /** After an update from a window the two signals always agree. */
  lemma UpdateAgrees(current: Layout, window: Window)
    requires window.InnerWidth?
    ensures IsMobileDevice(UpdateBreakpoint(current, window).device) <==> UpdateBreakpoint(current, window).breakpoint != BpDesktop
  {
    DeviceMatchesBreakpoint(window.width.UnwrapOr(1024.0));
  }

  predicate IsMobileScreen(s: ScreenSize) { s == ScreenMobile }
  predicate IsTabletScreen(s: ScreenSize) { s == ScreenTablet }
  predicate IsDesktopScreen(s: ScreenSize) { s == ScreenDesktop }
  predicate IsMobileOrTablet(s: ScreenSize) { s == ScreenMobile || s == ScreenTablet }

  /** Exactly one of the three size predicates holds, and "mobile or tablet" is "not desktop". */
  lemma ScreenPredicatesPartition(s: ScreenSize)
    ensures (if IsMobileScreen(s) then 1 else 0) + (if IsTabletScreen(s) then 1 else 0) + (if IsDesktopScreen(s) then 1 else 0) == 1
    ensures IsMobileOrTablet(s) <==> !IsDesktopScreen(s)
  {
  }

  /** `get_screen_size`: under 768 is mobile, under 1024 tablet, else desktop;
      with no window or no numeric width, desktop. */
  function ScreenSizeOf(window: Window): (s: ScreenSize)
    ensures window.NoWindow? || window.width.None? ==> s == ScreenDesktop
    ensures window.InnerWidth? && window.width.Some? ==>
      (s == ScreenMobile <==> window.width.value < 768.0)
      && (s == ScreenTablet <==> 768.0 <= window.width.value < 1024.0)
      && (s == ScreenDesktop <==> 1024.0 <= window.width.value)
  {
    match window
    case InnerWidth(Some(w)) =>
      if w < 768.0 then ScreenMobile else if w < 1024.0 then ScreenTablet else ScreenDesktop
    case _ => ScreenDesktop
  }

  /** The two hooks agree on what is desktop, and differ only on where tablet starts. */
  lemma ClassifiersAgreeOnDesktop(w: real)
    ensures IsDesktopScreen(ScreenSizeOf(InnerWidth(Some(w)))) <==> BreakpointOf(w) == BpDesktop
    ensures 640.0 <= w < 768.0 ==> BreakpointOf(w) == BpTablet && IsMobileScreen(ScreenSizeOf(InnerWidth(Some(w))))
  {
  }
}
