/** The argument handling at the top of kmsgrab.c's `main`: the window size and
    the fullscreen flag. Each `sscanf("%i")` conversion is given already done:
    `Some(n)` when it read the integer n, `None` when it matched nothing, in which
    case the variable it writes keeps its previous value. */
module CommandLine {
  import opened Wrappers

  const DefaultWidth: int := 1280
  const DefaultHeight: int := 720

  /** A single argument equal to this value asks for a fullscreen window. */
  const FullscreenRequest: int := -1

  /** `argc` and the conversions of argv[1] and argv[2] to the initial window
      width, height and fullscreen flag (0 or 1). A single argument never changes
      the width: it is read, compared with -1, then reset to the default. */
  method ParseArgs(argc: int, arg1: Option<int>, arg2: Option<int>)
    returns (width: int, height: int, fullscreen: int)
    ensures argc <= 1 ==> width == DefaultWidth && height == DefaultHeight && fullscreen == 0
    ensures argc == 2 ==> width == DefaultWidth && height == DefaultHeight
    ensures argc == 2 ==> (fullscreen == 1 <==> arg1 == Some(FullscreenRequest))
    ensures argc == 2 ==> (fullscreen == 0 <==> arg1 != Some(FullscreenRequest))
    ensures argc > 2 ==> width == arg1.GetOr(DefaultWidth) && height == arg2.GetOr(DefaultHeight)
    ensures argc > 2 ==> fullscreen == 0
  {
    width := DefaultWidth;
    height := DefaultHeight;
    fullscreen := 0;

    if argc == 2 {
      if arg1.Some? {
        width := arg1.value;
      }
      if width == FullscreenRequest {
        fullscreen := 1;
      }
      width := DefaultWidth;
    }

    if argc > 2 {
      if arg1.Some? {
        width := arg1.value;
      }
      if arg2.Some? {
        height := arg2.value;
      }
    }
  }
}
