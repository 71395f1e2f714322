/**
 * The last steps of the pipeline: every rendered frame is padded with white
 * to even dimensions (libx264 needs them), and `compile_video` loads the
 * frames, repeats the last one `hold_last_frame` times and reports a
 * frame total for the duration message.
 */
module Frames {

  // ---- Even dimensions -----------------------------------------------------------

  /** `width if width % 2 == 0 else width + 1`: the least even size that fits `n`. */
  function EvenDimension(n: nat): (r: nat)
    ensures r % 2 == 0 && n <= r
    ensures forall m: nat :: m % 2 == 0 && n <= m ==> r <= m
    ensures r == n <==> n % 2 == 0
  {
    if n % 2 == 0 then n else n + 1
  }

  lemma EvenDimensionIdempotent(n: nat)
    ensures EvenDimension(EvenDimension(n)) == EvenDimension(n)
  {
  }

  datatype Rgb = Rgb(red: int, green: int, blue: int)

  const White := Rgb(255, 255, 255)

  /** An image as its rows of pixels, top to bottom. */
  type Raster = seq<seq<Rgb>>

  predicate Rectangular(img: Raster, width: nat, height: nat) {
    |img| == height && forall y :: 0 <= y < height ==> |img[y]| == width
  }

  /**
   * An image with an odd side is pasted at (0, 0) onto a white canvas of the
   * even size; an image with two even sides is kept.
   */
  function PadToEven(img: Raster, width: nat, height: nat): Raster
    requires Rectangular(img, width, height)
  {
    if EvenDimension(width) == width && EvenDimension(height) == height then img
    else
      seq(EvenDimension(height), y requires 0 <= y < EvenDimension(height) =>
        seq(EvenDimension(width), x requires 0 <= x < EvenDimension(width) =>
          if y < height && x < width then img[y][x] else White))
  }

  /** Padding gives even sides, keeps every pixel in place and adds only white. */
  lemma PadToEvenSpec(img: Raster, width: nat, height: nat)
    requires Rectangular(img, width, height)
    ensures var out := PadToEven(img, width, height);
      && Rectangular(out, EvenDimension(width), EvenDimension(height))
      && (forall y, x :: 0 <= y < height && 0 <= x < width ==> out[y][x] == img[y][x])
      && (forall y, x :: 0 <= y < EvenDimension(height) && 0 <= x < EvenDimension(width) && (height <= y || width <= x) ==>
            out[y][x] == White)
      && (width % 2 == 0 && height % 2 == 0 ==> out == img)
  {
  }

  /** A padded frame needs no more padding. */
  lemma PadToEvenIdempotent(img: Raster, width: nat, height: nat)
    requires Rectangular(img, width, height)
    ensures Rectangular(PadToEven(img, width, height), EvenDimension(width), EvenDimension(height))
    ensures PadToEven(PadToEven(img, width, height), EvenDimension(width), EvenDimension(height))
         == PadToEven(img, width, height)
  {
    PadToEvenSpec(img, width, height);
  }

  // ---- Compiling the video -------------------------------------------------------

  /** The frames as read, one per file, in order. */
  function Loaded<Frame>(frameFiles: seq<string>, imread: string -> Frame): (frames: seq<Frame>)
    ensures |frames| == |frameFiles| && forall i :: 0 <= i < |frameFiles| ==> frames[i] == imread(frameFiles[i])
  {
    seq(|frameFiles|, i requires 0 <= i < |frameFiles| => imread(frameFiles[i]))
  }

  /** The sequence handed to the encoder: the loaded frames, then the last one `hold` more times. */
  function VideoFrames<Frame>(loaded: seq<Frame>, hold: int): seq<Frame> {
    if loaded != [] && hold > 0 then loaded + seq(hold, _ => loaded[|loaded| - 1]) else loaded
  }

  /**
   * The video starts with every loaded frame in order, ends on the last one,
   * and holds it for exactly `hold` extra frames when there is a frame and
   * `hold` is positive; otherwise nothing is added.
   */
  lemma VideoShape<Frame>(loaded: seq<Frame>, hold: int)
    ensures var v := VideoFrames(loaded, hold);
      && v[..|loaded|] == loaded
      && |v| == (if loaded != [] && hold > 0 then |loaded| + hold else |loaded|)
      && (loaded != [] ==> v[|v| - 1] == loaded[|loaded| - 1])
      && forall i :: |loaded| <= i < |v| ==> v[i] == loaded[|loaded| - 1]
  {
  }

  /**
   * `compile_video` up to the encoder call: the frames handed to the encoder,
   * and the total the duration message reports.
   */
  method CompileVideo<Frame>(frameFiles: seq<string>, imread: string -> Frame, hold: int)
    returns (frames: seq<Frame>, totalFrames: int)
    ensures frames == VideoFrames(Loaded(frameFiles, imread), hold)
    ensures |frames| == FrameCount(|frameFiles|, hold)
    ensures totalFrames == ReportedTotal(|frameFiles|, hold)
  {
    frames := [];
    for i := 0 to |frameFiles|
      invariant |frames| == i && forall k :: 0 <= k < i ==> frames[k] == imread(frameFiles[k])
    {
      frames := frames + [imread(frameFiles[i])];
    }
    ghost var loaded := frames;
    assert loaded == Loaded(frameFiles, imread);
    if frames != [] && hold > 0 {
      var last := frames[|frames| - 1];
      for j := 0 to hold
        invariant frames == loaded + seq(j, _ => last)
      {
        frames := frames + [last];
      }
    }
    VideoLength(frameFiles, imread, hold);
    totalFrames := |frameFiles| + hold;
  }

  /**
   * The number of frames the hold leaves for `files` loaded frames, whatever
   * they are: none without files, the files plus the hold when it is
   * positive, otherwise the files.
   */
  function FrameCount(files: nat, hold: int): (n: nat)
    ensures files == 0 ==> n == 0
    ensures files > 0 ==> n >= files && (hold > 0 ==> n == files + hold) && (hold <= 0 ==> n == files)
  {
    var any := seq(files, _ => 0);
    VideoShape(any, hold);
    |VideoFrames(any, hold)|
  }

  /** The video holds `FrameCount` frames, whatever the frames are. */
  lemma VideoLength<Frame>(frameFiles: seq<string>, imread: string -> Frame, hold: int)
    ensures |VideoFrames(Loaded(frameFiles, imread), hold)| == FrameCount(|frameFiles|, hold)
  {
    VideoShape(Loaded(frameFiles, imread), hold);
  }

  /** `total_frames = len(frame_files) + hold_last_frame`, as the duration message computes it. */
  function ReportedTotal(files: nat, hold: int): int {
    files + hold
  }

  /** The report agrees with the video whenever there is a frame and the hold is positive, as on the command line. */
  lemma ReportedTotalAgrees(files: nat, hold: int)
    ensures ReportedTotal(files, hold) == FrameCount(files, hold) <==> (files > 0 && hold > 0) || hold == 0
  {
  }

  /** Two frames with `hold_last_frame = -1`: two frames are written but one is reported. */
  lemma ReportedTotalMiscounts(imread: string -> int)
    ensures var files := ["frame_2023-01.png", "frame_2023-02.png"];
      |VideoFrames(Loaded(files, imread), -1)| == 2 && ReportedTotal(|files|, -1) == 1
  {
    VideoShape(Loaded(["frame_2023-01.png", "frame_2023-02.png"], imread), -1);
  }
}
