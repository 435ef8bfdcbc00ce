# GLFW window wrapper: frame timing and FPS overlay

This project models the `Window` struct of the glfw-window repository, a thin
wrapper around one GLFW window and its OpenGL context. The part with logic of
its own is the frames-per-second overlay. `show_fps` runs once per frame. It
counts the frame. When at least one second has passed since the last sample,
it writes `"<title> (FPS: <count>)"` into the title bar and starts a new
sample. `init_timer` starts the timer before the render loop. Construction
either fails at library initialisation, which leaves a null handle that
`is_null` reports, or asks GLFW for a window.

Modules:

- `Numerals` (numerals.dfy): decimal formatting of the counter (`NatToString`), the
  reader that inverts it, and the round trips in both directions.
- `FpsTitle` (fps_title.dfy): the caption text, its parser, and the facts that
  the caption determines the count and always begins with the base title.
- `FrameTimer` (frame_timer.dfy): the timing state as a value (`Timer`), one
  `show_fps` step (`ShowFpsStep`), a run of steps over a sequence of clock
  readings (`Run`), and lemmas about which counts such a run publishes.
- `GlfwWindow` (window.dfy): the `Window` class with its fields and its methods
  `IsNull`, `InitTimer` and `ShowFps`. The class keeps a ghost record of the
  clock readings since the timer started. Its invariant `Valid()` ties the
  fields to `Run` over those readings, so the `FrameTimer` lemmas apply to any
  sequence of method calls. Three client methods drive a window through the
  class. `DemoRun` runs a windowed "Demo" window: thirty frames with no time
  passing, then one frame a second later. `FailedInitRun` and `FailedCreateRun`
  construct windows whose library initialisation or window creation fails, and
  query `IsNull`.

Time is a `real` clock reading passed in as an argument, and the sample
threshold is 1.0. The counter is a 32-bit unsigned value that wraps to 0. The
lemmas about whole runs require that a run never reaches 2^32 frames.

Two behaviours of the code are easy to get wrong, and the model keeps both:

- `init_timer` only records the clock (src/window.cpp:99-101). It does not
  reset the counter, which keeps counting from the constructor's 0
  (src/window.cpp:9). A fresh window's first sample therefore counts every
  frame since construction.
- Windowed mode passes the monitor's width and height too
  (src/window.cpp:31-34). `WindowRequest` records this.

## Model

| member | source | states |
|---|---|---|
| Numerals.NatToString | src/window.cpp:114 | the count is streamed as a canonical decimal numeral: one or more digits, no leading zero, a single digit exactly for counts below ten |
| Numerals.NatToStringRoundTrip | src/window.cpp:114 | reading the formatted numeral back gives the count |
| Numerals.CanonicalRoundTrip | src/window.cpp:114 | every canonical numeral is the formatting of its value, so formatting and reading are inverse |
| Numerals.NatToStringInjective | src/window.cpp:114 | distinct counts are formatted as distinct numerals |
| FpsTitle.FpsCaption | src/window.cpp:114 | the caption is the base title followed by " (FPS: ", the numeral and ")"; it strictly extends the title |
| FpsTitle.CaptionRoundTrip | src/window.cpp:113-116 | parsing a published caption over the title recovers the count it shows |
| FpsTitle.ParsedCaptionIsCaption | src/window.cpp:114 | any text that parses with count n is exactly the caption for n |
| FpsTitle.CaptionInjective | src/window.cpp:114 | two captions over one title are equal if and only if their counts are |
| FpsTitle.TitleBarTextExtendsTitle | src/window.cpp:114 | whatever the title bar shows, base title or caption, begins with the base title |
| FrameTimer.Increment | include/window.hpp:34 | `m_fps++` on an `unsigned int` is addition modulo 2^32 |
| FrameTimer.RunAccounting | src/window.cpp:107-119 | over any run without wrap-around, each published count is the number of frames since the previous sample including the closing frame, the first also counts what the timer held, samples follow each other without gap, each spans at least a second and ends at its closing frame's reading, every frame that closed no sample came less than a second after the start of its sample (so no crossing frame is missed), and the final counter holds the frames after the last sample |
| FrameTimer.SamplesArePositive | src/window.cpp:108-118 | every published count is at least one |
| FrameTimer.QuietRun | src/window.cpp:112-119 | frames all less than a second after the last sample publish nothing and only add to the counter |
| FrameTimer.SampleAtFirstCrossing | src/window.cpp:108-118 | a run whose last frame is the first to cross the second publishes exactly once, counting every frame of the run, and leaves the counter at 0 and the sample time at that frame's reading |
| FrameTimer.FirstSampleCountsEveryFrame | src/window.cpp:9 | starting from the constructor's zero counter, the first published count equals the number of frames up to and including the one that published it |
| FrameTimer.ThirtyOneFrameSample | src/window.cpp:107-119 | thirty frames at the start time and one a second later publish one sample of 31 frames |
| FrameTimer.SingleLateFrameSample | src/window.cpp:107-119 | one frame two seconds after the start publishes a count of 1 |
| GlfwWindow.WindowRequest | src/window.cpp:29-34 | both modes request the monitor's width and height with the base title; only full-screen passes the monitor |
| GlfwWindow.Window.constructor | src/window.cpp:7-34 | the title is stored and the counter starts at 0; the handle is null exactly when library initialisation or window creation failed, and otherwise it is the requested window showing the base title |
| GlfwWindow.Window.IsNull | src/window.cpp:41-43 | true exactly when the handle is null; it changes no state |
| GlfwWindow.Window.InitTimer | src/window.cpp:99-101 | records the clock reading as the sample time and leaves the counter, the title bar and the handle as they were |
| GlfwWindow.Window.ShowFps | src/window.cpp:107-120 | increments the counter; a frame less than a second after the last sample changes nothing else, so the sample time and the title bar are untouched; a frame a second or more after it puts the caption with the incremented count in the title bar, then resets the counter to 0 and the sample time to this frame's reading; the state stays that of `Run` over the readings since the timer start |
| GlfwWindow.DemoRun | src/window.cpp:107-119 | a windowed "Demo" window with thirty frames at the start time and one a second later shows "Demo (FPS: 31)" |
| GlfwWindow.FailedInitRun | src/window.cpp:12-16 | a window whose initialisation failed reports null on repeated queries, whatever the outcome window creation would have had |
| GlfwWindow.FailedCreateRun | src/window.cpp:32-34 | a window whose library initialised but whose creation failed reports null |

## Left out

- GLFW itself. Context-version, profile and multisample hints, window creation, `glfwGetWindowSize`, event polling, buffer swap, key queries, cursor mode, callback registration, and destroy/terminate are foreign calls into a library that is not part of this model (src/window.cpp:20-37, 46-93). Window creation is recorded only as the request it would make. The title bar is a field of the class.
- `width` and `height`: they come from `glfwGetWindowSize`, a foreign call. The model does not carry them.
- `glfwWindowShouldClose` and `close`: the close flag lives inside GLFW.
- `Monitor`: monitor.hpp is not part of this model. A monitor is an opaque value with a width, a height and an id, passed to the constructor.
- The outcomes of library initialisation and window creation, and the clock reading: all three are arguments (`initOk`, `createOk`, `now`), not calls. Why creation fails, such as a missing OpenGL 3.3 core context or a 0×0 monitor, is GLFW's concern.
- The diagnostic written to standard output when initialisation fails.
- Floating-point behaviour of `glfwGetTime` and of the subtraction at src/window.cpp:112: time is an exact `real`.
- GlfwWindow.Window.ShowFps: requires that the timer was started and that the handle is not null. Before `init_timer` the sample time is an uninitialised `double`, and a null handle makes the title call undefined.
- FrameTimer.RunAccounting: requires that a run never wraps the 32-bit counter. The single-step members model the wrap-around. The whole-run accounting does not cover a run of 2^32 or more frames.
- The mismatch between the one-argument constructor in include/window.hpp:17 and the two-argument definition in src/window.cpp:7: a build concern. The model uses the definition's parameters.
- Threading and context currency: the code is single-threaded, and which context is current is an OpenGL/GLFW concern.
- GlfwWindow.Window.constructor: the title bar holds the whole title string. GLFW receives the title as a C string (src/window.cpp:32-34, 116), which ends at the first NUL character. The model assumes titles contain no NUL. For a title with a NUL, the real title bar shows only the part before it, and never shows the count.
