/** The GLFW window wrapper: construction with its failure path, the null
    check, and the FPS overlay shown in the title bar. Calls into GLFW are
    not modelled; the clock reading is passed in, the window GLFW would be
    asked to create is recorded as a value, and the title-bar text is a field. */
module GlfwWindow {
  import opened Options
  import opened Numerals
  import opened FpsTitle
  import opened FrameTimer

  /** An opaque reference to a display. */
  type MonitorId = nat

  /** The primary display as the window sees it: resolution and handle. */
  datatype Monitor = Monitor(width: int, height: int, id: MonitorId)

  /** The arguments of the window-creation call: size, caption, and the
      display to go full-screen on (None for a windowed window). */
  datatype CreateRequest = CreateRequest(width: int, height: int, title: string, monitor: Option<MonitorId>)

  /** The native window handle: null, or the window created on request. */
  datatype Handle = Null | Native(request: CreateRequest)

  /** What window creation asks for. The windowed request uses the display's
      size too; only the monitor argument differs. */
  function WindowRequest(title: string, isFullscreen: bool, monitor: Monitor): (r: CreateRequest)
    ensures r.width == monitor.width && r.height == monitor.height && r.title == title
    ensures r.monitor.Some? <==> isFullscreen
    ensures isFullscreen ==> r.monitor == Some(monitor.id)
  {
    CreateRequest(monitor.width, monitor.height, title, if isFullscreen then Some(monitor.id) else None)
  }

  class Window {
    /** The base title; set by the constructor and never reassigned. */
    const title: string
    var w: Handle
    /** Frames counted since the last FPS sample. */
    var fps: Uint32
    /** Clock reading of the last FPS sample, or of the timer start. */
    var lastTime: real
    /** The text in the window's title bar. */
    var titleBar: string
    /** Whether the timer has been started; before that `lastTime` is undefined. */
    ghost var timerStarted: bool
    /** The timing state when the timer was last started, and the clock
        readings of the frames counted since. */
    ghost var timerStart: Timer
    ghost var readings: seq<real>

    /** A live window shows its base title or an FPS caption over it; once
        the timer runs, the timing state is that of the run of frames since
        it was started, and the title bar shows that run's latest sample. */
    ghost predicate Valid()
      reads this
    {
      && (w.Native? ==> IsTitleBarText(title, titleBar))
      && (timerStarted ==>
            var run := Run(timerStart, readings);
            && run.final == TimerState()
            && (run.samples != [] ==> titleBar == FpsCaption(title, run.samples[|run.samples| - 1].frames)))
    }

    /** The frame-timing state as a value. */
    function TimerState(): Timer
      reads this
    {
      Timer(fps, lastTime)
    }

    /** One attempt to initialise the library (`initOk` is its outcome) and,
        when it succeeds, one attempt to create a window on `monitor`
        (`createOk` is its outcome, which does not matter when
        initialisation failed). */
    constructor (title: string, isFullscreen: bool, initOk: bool, createOk: bool, monitor: Monitor)
      ensures Valid()
      ensures this.title == title && fps == 0 && !timerStarted
      ensures w == Null <==> !initOk || !createOk
      ensures w.Native? ==> w.request == WindowRequest(title, isFullscreen, monitor) && titleBar == title
    {
      this.title := title;
      fps := 0;
      timerStarted := false;
      if !initOk {
        w := Null;
        titleBar := "";
      } else if !createOk {
        w := Null;
        titleBar := "";
      } else {
        w := Native(WindowRequest(title, isFullscreen, monitor));
        titleBar := title;
      }
    }

    /** Whether construction failed. */
    method IsNull() returns (isNull: bool)
      ensures isNull <==> w == Null
    {
      isNull := w == Null;
    }

    /** Starts the FPS timer at clock reading `now`. The frame counter is
        left as it is. */
    method InitTimer(now: real)
      requires Valid()
      modifies this`lastTime, this`timerStarted, this`timerStart, this`readings
      ensures Valid()
      ensures lastTime == now && timerStarted
      ensures fps == old(fps) && titleBar == old(titleBar) && w == old(w)
      ensures timerStart == TimerState() && readings == []
    {
      lastTime := now;
      timerStarted := true;
      timerStart := TimerState();
      readings := [];
    }

    /** Counts one frame at clock reading `now`; when at least a second has
        elapsed since the last sample, shows the count in the title bar and
        starts a new sample. */
    method ShowFps(now: real)
      requires Valid() && timerStarted && w.Native?
      modifies this`fps, this`lastTime, this`titleBar, this`readings
      ensures Valid()
      ensures readings == old(readings) + [now]
      ensures TimerState() == ShowFpsStep(old(TimerState()), now).next
      ensures now - old(lastTime) < SampleInterval ==>
        fps == Increment(old(fps)) && lastTime == old(lastTime) && titleBar == old(titleBar)
      ensures now - old(lastTime) >= SampleInterval ==>
        fps == 0 && lastTime == now && titleBar == FpsCaption(title, Increment(old(fps)))
    {
      RunStep(timerStart, readings, now);
      fps := Increment(fps);
      if now - lastTime >= SampleInterval {
        titleBar := FpsCaption(title, fps);
        CaptionRoundTrip(title, fps);
        lastTime := now;
        fps := 0;
      }
      readings := readings + [now];
    }
  }

  /** The end-to-end run: a windowed "Demo" window, the timer started at
      `t0`, thirty frames with no time passing, then one frame a second
      later. The title bar then reads "Demo (FPS: 31)". */
  method DemoRun(t0: real) returns (caption: string)
    ensures caption == "Demo (FPS: 31)"
  {
    var window := new Window("Demo", false, true, true, Monitor(1920, 1080, 0));
    window.InitTimer(t0);
    var frame := 0;
    while frame < 30
      invariant 0 <= frame <= 30
      invariant window.Valid() && window.timerStarted && window.w.Native?
      invariant window.title == "Demo" && window.titleBar == "Demo"
      invariant window.fps == frame && window.lastTime == t0
    {
      window.ShowFps(t0);
      frame := frame + 1;
    }
    assert FpsCaption("Demo", 31) == "Demo (FPS: 31)" by {
      assert NatToString(31) == "31";
    }
    window.ShowFps(t0 + 1.0);
    caption := window.titleBar;
  }

  /** A window whose library initialisation failed reports null, as often as
      it is asked, whatever the outcome window creation would have had. */
  method FailedInitRun(title: string, isFullscreen: bool, createOk: bool, monitor: Monitor)
    returns (first: bool, second: bool)
    ensures first && second
  {
    var window := new Window(title, isFullscreen, false, createOk, monitor);
    first := window.IsNull();
    second := window.IsNull();
  }

  /** A window whose library initialised but whose creation failed reports
      null too. */
  method FailedCreateRun(title: string, isFullscreen: bool, monitor: Monitor) returns (isNull: bool)
    ensures isNull
  {
    var window := new Window(title, isFullscreen, true, false, monitor);
    isNull := window.IsNull();
  }
}
