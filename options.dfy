/** Rendering options and the configuration they resolve to (image.go:40,
    57-94, 109-130), as values. The objects that `new` updates in place are in
    module Image; this module gives what those updates compute, and proves
    what applying a list of options gives. */
module Options {
  import opened Chess

  /** A colour as image/color's RGBA carries it: its four channel values. */
  datatype Color = Rgba(r: int, g: int, b: int, a: int)

  /** The contents of a `config`. */
  datatype Settings = Settings(sqWidth: int, sqHeight: int, flip: bool, light: Color, dark: Color)

  const DEFAULT_LIGHT := Rgba(235, 209, 166, 1)
  const DEFAULT_DARK := Rgba(165, 117, 81, 1)

  /** The configuration `new` starts from. */
  const DEFAULTS := Settings(45, 45, false, DEFAULT_LIGHT, DEFAULT_DARK)

  /** Highlighted squares and their colours: the encoder's `marks`. */
  type Marks = map<Square, Color>

  /** The three Option closures the package can build. */
  datatype Option =
    | Flip
    | SquareColors(light: Color, dark: Color)
    | MarkSquares(color: Color, squares: seq<Square>)

  /** What an option does to a config. */
  function ApplyToConfig(op: Option, s: Settings): (r: Settings)
    ensures r.sqWidth == s.sqWidth && r.sqHeight == s.sqHeight
    ensures r.flip == (s.flip || op.Flip?)
    ensures op.SquareColors? ==> r.light == op.light && r.dark == op.dark
    ensures !op.SquareColors? ==> r.light == s.light && r.dark == s.dark
  {
    match op
    case Flip => s.(flip := true)
    case SquareColors(light, dark) => s.(light := light, dark := dark)
    case MarkSquares(_, _) => s
  }

  /** The loop of MarkSquares: each listed square, in order, mapped to `c`. */
  function MarkAll(m: Marks, c: Color, sqs: seq<Square>): (r: Marks)
    ensures r.Keys == m.Keys + set sq | sq in sqs
    ensures forall sq :: sq in sqs ==> r[sq] == c
    ensures forall sq :: sq in m && sq !in sqs ==> r[sq] == m[sq]
  {
    if sqs == [] then m else MarkAll(m, c, sqs[..|sqs| - 1])[sqs[|sqs| - 1] := c]
  }

  /** What an option does to the marks. */
  function ApplyToMarks(op: Option, m: Marks): Marks {
    if op.MarkSquares? then MarkAll(m, op.color, op.squares) else m
  }

  /** Options applied left to right to a config. */
  function ResolveConfig(s: Settings, ops: seq<Option>): Settings {
    if ops == [] then s else ApplyToConfig(ops[|ops| - 1], ResolveConfig(s, ops[..|ops| - 1]))
  }

  /** Options applied left to right to the marks. */
  function ResolveMarks(m: Marks, ops: seq<Option>): Marks {
    if ops == [] then m else ApplyToMarks(ops[|ops| - 1], ResolveMarks(m, ops[..|ops| - 1]))
  }

  /** The position of the last SquareColors option, or -1 if there is none. */
  function LastSquareColors(ops: seq<Option>): (k: int)
    ensures -1 <= k < |ops|
    ensures 0 <= k ==> ops[k].SquareColors?
    ensures forall j :: k < j < |ops| ==> !ops[j].SquareColors?
  {
    if ops == [] then -1
    else if ops[|ops| - 1].SquareColors? then |ops| - 1
    else LastSquareColors(ops[..|ops| - 1])
  }

  /** The position of the last MarkSquares option listing `sq`, or -1. */
  function LastMarkOf(ops: seq<Option>, sq: Square): (k: int)
    ensures -1 <= k < |ops|
    ensures 0 <= k ==> ops[k].MarkSquares? && sq in ops[k].squares
    ensures forall j :: k < j < |ops| ==> !(ops[j].MarkSquares? && sq in ops[j].squares)
  {
    if ops == [] then -1
    else if ops[|ops| - 1].MarkSquares? && sq in ops[|ops| - 1].squares then |ops| - 1
    else LastMarkOf(ops[..|ops| - 1], sq)
  }

  /** Square sizes are never changed by an option; `flip` ends up set exactly
      when it started set or some option is Flip. */
  lemma {:induction false} ResolveFlipAndSize(s: Settings, ops: seq<Option>)
    ensures ResolveConfig(s, ops).sqWidth == s.sqWidth
    ensures ResolveConfig(s, ops).sqHeight == s.sqHeight
    ensures ResolveConfig(s, ops).flip <==> s.flip || exists j :: 0 <= j < |ops| && ops[j].Flip?
  {
    if ops != [] {
      var init := ops[..|ops| - 1];
      ResolveFlipAndSize(s, init);
      if exists j :: 0 <= j < |init| && init[j].Flip? {
        var j :| 0 <= j < |init| && init[j].Flip?;
        assert ops[j].Flip?;
      }
      if exists j :: 0 <= j < |ops| && ops[j].Flip? {
        var j :| 0 <= j < |ops| && ops[j].Flip?;
        if j < |init| {
          assert init[j].Flip?;
        }
      }
    }
  }

  /** The last SquareColors wins for both colours; without one, the colours
      are those started from. */
  lemma {:induction false} ResolveColors(s: Settings, ops: seq<Option>)
    ensures var k := LastSquareColors(ops); var r := ResolveConfig(s, ops);
      && (k < 0 ==> r.light == s.light && r.dark == s.dark)
      && (0 <= k ==> r.light == ops[k].light && r.dark == ops[k].dark)
  {
    if ops != [] && !ops[|ops| - 1].SquareColors? {
      ResolveColors(s, ops[..|ops| - 1]);
    }
  }

  /** Every config option is a constant assignment, so applying the whole list
      a second time, as `new` does, changes nothing. */
  lemma ResolveIdempotent(s: Settings, ops: seq<Option>)
    ensures ResolveConfig(ResolveConfig(s, ops), ops) == ResolveConfig(s, ops)
  {
    var once := ResolveConfig(s, ops);
    ResolveFlipAndSize(s, ops);
    ResolveFlipAndSize(once, ops);
    ResolveColors(s, ops);
    ResolveColors(once, ops);
  }

  /** After the options, a square is marked exactly when it was marked before or
      some MarkSquares lists it, and its colour is that of the last such option. */
  lemma {:induction false} ResolveMarksAt(m: Marks, ops: seq<Option>, sq: Square)
    ensures var k := LastMarkOf(ops, sq); var r := ResolveMarks(m, ops);
      && (sq in r <==> sq in m || 0 <= k)
      && (0 <= k ==> r[sq] == ops[k].color)
      && (k < 0 && sq in m ==> r[sq] == m[sq])
  {
    if ops != [] {
      ResolveMarksAt(m, ops[..|ops| - 1], sq);
    }
  }

  /** No option adds a square to the marks unless it lists it. */
  lemma {:induction false} ResolveMarksKeys(m: Marks, ops: seq<Option>)
    ensures m.Keys <= ResolveMarks(m, ops).Keys
    ensures forall sq :: sq in ResolveMarks(m, ops) && sq !in m ==> 0 <= LastMarkOf(ops, sq)
  {
    forall sq | sq in ResolveMarks(m, ops) || sq in m
      ensures sq in ResolveMarks(m, ops)
      ensures sq !in m ==> 0 <= LastMarkOf(ops, sq)
    {
      ResolveMarksAt(m, ops, sq);
    }
  }
}
