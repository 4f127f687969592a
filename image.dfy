/** The encoder of image.go: the objects `new` builds and updates in place,
    and the Encode loop that draws a board. Drawing is recorded, not
    performed: every call the loop makes on its output sink or canvas is
    appended to a trace of Commands, and what the writer reports back is
    given by a Faults value. */
module Image {
  import opened Chess
  import opened Options
  import opened Layout
  import opened Glyphs

  /** A config object (image.go:88-94); `new` updates it through the options. */
  class Config {
    var sqWidth: int
    var sqHeight: int
    var flip: bool
    var light: Color
    var dark: Color

    /** The literal `new` starts from (image.go:110-116). */
    constructor ()
      ensures Value() == DEFAULTS
    {
      sqWidth, sqHeight, flip := 45, 45, false;
      light, dark := DEFAULT_LIGHT, DEFAULT_DARK;
    }

    function Value(): Settings
      reads this
    {
      Settings(sqWidth, sqHeight, flip, light, dark)
    }
  }

  /** An encoder object (image.go:97-100): the marks and the config it draws with. */
  class Encoder {
    var marks: Marks
    var cfg: Config?

    constructor (marks: Marks, cfg: Config?)
      ensures this.marks == marks && this.cfg == cfg
    {
      this.marks, this.cfg := marks, cfg;
    }

    /** Encode (image.go:140-181): one Init, then squares 0..63 in order, each
        drawn as its fill, its overlay if marked, its glyph if occupied, its
        rank label on file a and its file label on rank 1; then End. A glyph
        whose write fails ends the encoding with that error. */
    method Encode(b: Board, f: SvgFormat, asset: string -> string, faults: Faults)
      returns (trace: seq<Command>, err: Outcome)
      requires cfg != null
      ensures (trace, err) == Encoding(Scene(cfg.Value(), marks, b, asset), f, faults)
    {
      var s, m := cfg.Value(), marks;
      ghost var sc := Scene(s, m, b, asset);
      // f.Init(): a failure is wrapped and then dropped, so drawing goes on.
      trace := [Init(f.width, f.height)];
      for i := 0 to 64
        invariant trace == [Init(f.width, f.height)] + Drawn(sc, i)
        invariant FirstGlyphFailure(sc, faults, 0) == FirstGlyphFailure(sc, faults, i)
      {
        var drawn, squareErr := EncodeSquare(s, m, b, asset, faults, i);
        if squareErr.Err? {
          trace := trace + drawn;
          return trace, squareErr;
        }
        Assoc([Init(f.width, f.height)], Drawn(sc, i), drawn);
        trace := trace + drawn;
      }
      trace := trace + [End];
      err := Ok;
    }
  }

  /** One pass of Encode's loop (image.go:150-177): the square's fill, its
      overlay if it is marked, its glyph if it is occupied, then its labels.
      If the glyph write fails, the square's drawing stops there and the
      error is returned. */
  method EncodeSquare(s: Settings, m: Marks, b: Board, asset: string -> string, faults: Faults, sq: Square)
    returns (drawn: seq<Command>, err: Outcome)
    ensures err.Ok? <==> !GlyphFails(Scene(s, m, b, asset), faults, sq)
    ensures err.Ok? ==> drawn == SquareCommands(Scene(s, m, b, asset), sq)
    ensures err.Err? ==> err == Err(faults.glyphErrors[sq])
    ensures err.Err? ==> drawn == CutShort(Scene(s, m, b, asset), sq)
  {
    ghost var sc := Scene(s, m, b, asset);
    var (x, y) := XyForSquare(sq);
    // f.DrawSquare: its error is not looked at.
    var fill := [Fill(x, y, ColorForSquare(s, sq))];
    if sq in m {
      fill := fill + [Overlay(x, y, s.sqWidth, s.sqHeight, m[sq])];
    }
    assert fill == FillCommands(sc, sq);
    var glyph := [];
    var p := PieceAt(b, sq);
    if p != NoPiece {
      var xml := PieceXml(asset, x, y, p);
      glyph := [Glyph(x, y, xml)];
      if sq in faults.glyphErrors {
        return fill + glyph, Err(faults.glyphErrors[sq]);
      }
    }
    assert glyph == GlyphCommands(sc, sq);
    var txtColor := ColorForText(s, sq);
    var labels := [];
    if File(sq) == FILE_A {
      var (lx, ly) := RankLabelAt(s, x, y);
      labels := [RankText(lx, ly, RankName(sq), txtColor)];
    }
    if Rank(sq) == RANK_1 {
      var (lx, ly) := FileLabelAt(s, x, y);
      labels := labels + [FileText(lx, ly, FileName(sq), txtColor)];
    }
    assert labels == LabelCommands(sc, sq);
    drawn := fill + glyph + labels;
    err := Ok;
  }

  lemma Assoc<T>(a: seq<T>, b: seq<T>, c: seq<T>)
    ensures (a + b) + c == a + (b + c)
  {
  }

  /** Calling an option closure `op(cfg, e)` (image.go:59-85). */
  method Apply(op: Option, cfg: Config, e: Encoder)
    modifies cfg, e
    ensures cfg.Value() == ApplyToConfig(op, old(cfg.Value()))
    ensures e.marks == ApplyToMarks(op, old(e.marks))
    ensures e.cfg == old(e.cfg)
  {
    match op
    case Flip =>
      cfg.flip := true;
    case SquareColors(light, dark) =>
      cfg.light := light;
      cfg.dark := dark;
    case MarkSquares(c, sqs) =>
      for i := 0 to |sqs|
        invariant e.marks == MarkAll(old(e.marks), c, sqs[..i])
        invariant cfg.Value() == old(cfg.Value()) && e.cfg == old(e.cfg)
      {
        assert sqs[..i + 1][..i] == sqs[..i];
        e.marks := e.marks[sqs[i] := c];
      }
      assert sqs[..|sqs|] == sqs;
  }

  /** new (image.go:109-130): the options are applied once to the config with
      a scratch encoder each, then once more to the same config with the
      encoder that is returned. The second pass leaves the config as the first
      pass left it, so the result is a single left-to-right application. */
  method New(options: seq<Option>) returns (e: Encoder)
    ensures fresh(e) && e.cfg != null && fresh(e.cfg)
    ensures e.cfg.Value() == ResolveConfig(DEFAULTS, options)
    ensures e.marks == ResolveMarks(map[], options)
  {
    var cfg := new Config();
    for i := 0 to |options|
      invariant cfg.Value() == ResolveConfig(DEFAULTS, options[..i])
    {
      var scratch := new Encoder(map[], null);
      Apply(options[i], cfg, scratch);
      assert options[..i + 1][..i] == options[..i];
    }
    assert options[..|options|] == options;
    ghost var once := cfg.Value();
    e := new Encoder(map[], cfg);
    for i := 0 to |options|
      invariant cfg.Value() == ResolveConfig(once, options[..i])
      invariant e.marks == ResolveMarks(map[], options[..i])
      invariant e.cfg == cfg
    {
      Apply(options[i], cfg, e);
      assert options[..i + 1][..i] == options[..i];
    }
    ResolveIdempotent(DEFAULTS, options);
  }

  /** SVG (image.go:45-55): resolve the options, size the output from the
      config, and encode. Whatever the options, the output is 360 by 360. */
  method Svg(b: Board, asset: string -> string, faults: Faults, options: seq<Option>)
    returns (trace: seq<Command>, err: Outcome)
    ensures (trace, err) == Encoding(
      Scene(ResolveConfig(DEFAULTS, options), ResolveMarks(map[], options), b, asset),
      SvgFormat(45, 45, 360, 360), faults)
  {
    var e := New(options);
    var (boardWidth, boardHeight) := BoardSize(e.cfg.Value());
    ResolveFlipAndSize(DEFAULTS, options);
    var f := SvgFormat(e.cfg.sqWidth, e.cfg.sqHeight, boardWidth, boardHeight);
    trace, err := e.Encode(b, f, asset, faults);
  }

  /** One call on the output sink or the canvas. */
  datatype Command =
    | Init(width: int, height: int)                                // Format.Init: the canvas and its background
    | Fill(x: int, y: int, color: Color)                           // Format.DrawSquare
    | Overlay(x: int, y: int, width: int, height: int, color: Color) // a rectangle at 20% fill opacity
    | Glyph(x: int, y: int, xml: string)                           // the piece fragment written for cell (x, y)
    | RankText(x: int, y: int, text: string, color: Color)
    | FileText(x: int, y: int, text: string, color: Color)
    | End                                                          // canvas.End

  /** The dimensions an svgFormat is made with (image.go:21-25). */
  datatype SvgFormat = SvgFormat(sqWidth: int, sqHeight: int, width: int, height: int)

  datatype Error = Error(message: string)

  /** What Encode returns: nil or an error. */
  datatype Outcome = Ok | Err(error: Error)

  /** What the sink and the writer report: a failed Init, failed square fills,
      and failed glyph writes, each by square. */
  datatype Faults = Faults(initError: Outcome, squareErrors: map<Square, Error>, glyphErrors: map<Square, Error>)

  /** Everything Encode draws from: the config, the marks, the position and the glyph files. */
  datatype Scene = Scene(settings: Settings, marks: Marks, board: Board, asset: string -> string)

  /** A square's fill, then its overlay if it is marked. */
  function FillCommands(sc: Scene, sq: Square): seq<Command> {
    var (x, y) := XyForSquare(sq);
    [Fill(x, y, ColorForSquare(sc.settings, sq))]
    + (if sq in sc.marks then [Overlay(x, y, sc.settings.sqWidth, sc.settings.sqHeight, sc.marks[sq])] else [])
  }

  /** A square's glyph if it is occupied. */
  function GlyphCommands(sc: Scene, sq: Square): seq<Command> {
    var (x, y) := XyForSquare(sq);
    var p := PieceAt(sc.board, sq);
    if p != NoPiece then [Glyph(x, y, PieceXml(sc.asset, x, y, p))] else []
  }

  /** A square's rank label if it is on file a, then its file label if it is on rank 1. */
  function LabelCommands(sc: Scene, sq: Square): seq<Command> {
    var (x, y) := XyForSquare(sq);
    var color := ColorForText(sc.settings, sq);
    var (rx, ry) := RankLabelAt(sc.settings, x, y);
    var (fx, fy) := FileLabelAt(sc.settings, x, y);
    (if File(sq) == FILE_A then [RankText(rx, ry, RankName(sq), color)] else [])
    + (if Rank(sq) == RANK_1 then [FileText(fx, fy, FileName(sq), color)] else [])
  }

  function SquareCommands(sc: Scene, sq: Square): seq<Command> {
    FillCommands(sc, sq) + GlyphCommands(sc, sq) + LabelCommands(sc, sq)
  }

  /** What a square draws when its glyph write fails: its fill, its overlay if
      it is marked, and the glyph. */
  function CutShort(sc: Scene, sq: Square): seq<Command> {
    FillCommands(sc, sq) + GlyphCommands(sc, sq)
  }

  /** Squares 0..n-1 drawn in order, no write failing. */
  function Drawn(sc: Scene, n: nat): seq<Command>
    requires n <= 64
  {
    if n == 0 then [] else Drawn(sc, n - 1) + SquareCommands(sc, n - 1)
  }

  /** The glyph write for `sq` happens and fails. */
  predicate GlyphFails(sc: Scene, faults: Faults, sq: Square) {
    PieceAt(sc.board, sq) != NoPiece && sq in faults.glyphErrors
  }

  /** The first square at or after `from` whose glyph write fails, or 64. */
  function FirstGlyphFailure(sc: Scene, faults: Faults, from: nat): (k: nat)
    requires from <= 64
    ensures from <= k <= 64
    ensures k < 64 ==> GlyphFails(sc, faults, k)
    ensures forall j :: from <= j < k ==> !GlyphFails(sc, faults, j)
    decreases 64 - from
  {
    if from == 64 then 64
    else if GlyphFails(sc, faults, from) then from
    else FirstGlyphFailure(sc, faults, from + 1)
  }

  /** What Encode records and returns: everything up to and including the
      first failing glyph write and that write's error, or the whole board
      followed by End. */
  function Encoding(sc: Scene, f: SvgFormat, faults: Faults): (seq<Command>, Outcome) {
    var k := FirstGlyphFailure(sc, faults, 0);
    if k == 64 then
      ([Init(f.width, f.height)] + Drawn(sc, k) + [End], Ok)
    else
      ([Init(f.width, f.height)] + Drawn(sc, k) + CutShort(sc, k),
       Err(faults.glyphErrors[k]))
  }
}
