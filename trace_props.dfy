/** What the trace recorded by Encode looks like: how many commands of each
    kind it holds, the order in which squares are filled, where it stops when
    a glyph write fails, and what it does not depend on. */
module TraceProperties {
  import opened Chess
  import opened Options
  import opened Layout
  import opened Glyphs
  import opened Image

  /** The kind of a recorded command. */
  datatype Tag = InitTag | FillTag | OverlayTag | GlyphTag | RankTextTag | FileTextTag | EndTag

  function TagOf(c: Command): Tag {
    match c
    case Init(_, _) => InitTag
    case Fill(_, _, _) => FillTag
    case Overlay(_, _, _, _, _) => OverlayTag
    case Glyph(_, _, _) => GlyphTag
    case RankText(_, _, _, _) => RankTextTag
    case FileText(_, _, _, _) => FileTextTag
    case End => EndTag
  }

  function Indicator(b: bool): nat {
    if b then 1 else 0
  }

  /** The kinds of a trace's commands, in order. */
  function Tags(trace: seq<Command>): (r: seq<Tag>)
    ensures |r| == |trace|
  {
    seq(|trace|, i requires 0 <= i < |trace| => TagOf(trace[i]))
  }

  lemma TagsConcat(a: seq<Command>, b: seq<Command>)
    ensures Tags(a + b) == Tags(a) + Tags(b)
  {
    assert forall i :: 0 <= i < |a + b| ==> Tags(a + b)[i] == (Tags(a) + Tags(b))[i];
  }

  lemma TagsSingle(c: Command)
    ensures Tags([c]) == [TagOf(c)]
  {
    assert Tags([c])[0] == TagOf(c);
  }

  /** How many of `tags` are `t`. */
  function CountTag(tags: seq<Tag>, t: Tag): nat {
    CountTagBelow(tags, t, |tags|)
  }

  /** How many of the first `i` of `tags` are `t`. */
  function CountTagBelow(tags: seq<Tag>, t: Tag, i: nat): nat
    requires i <= |tags|
  {
    if i == 0 then 0 else CountTagBelow(tags, t, i - 1) + Indicator(tags[i - 1] == t)
  }

  lemma {:induction false} CountTagPrefix(a: seq<Tag>, b: seq<Tag>, t: Tag, i: nat)
    requires i <= |a|
    ensures CountTagBelow(a + b, t, i) == CountTagBelow(a, t, i)
  {
    if i > 0 {
      CountTagPrefix(a, b, t, i - 1);
    }
  }

  lemma {:induction false} CountTagSuffix(a: seq<Tag>, b: seq<Tag>, t: Tag, j: nat)
    requires j <= |b|
    ensures CountTagBelow(a + b, t, |a| + j) == CountTag(a, t) + CountTagBelow(b, t, j)
  {
    if j > 0 {
      CountTagSuffix(a, b, t, j - 1);
    } else {
      CountTagPrefix(a, b, t, |a|);
    }
  }

  lemma CountTagConcat(a: seq<Tag>, b: seq<Tag>, t: Tag)
    ensures CountTag(a + b, t) == CountTag(a, t) + CountTag(b, t)
  {
    CountTagSuffix(a, b, t, |b|);
  }

  lemma CountTagSingle(u: Tag, t: Tag)
    ensures CountTag([u], t) == Indicator(u == t)
  {
    assert CountTagBelow([u], t, 1) == CountTagBelow([u], t, 0) + Indicator([u][0] == t);
  }

  /** How many commands of `trace` are of kind `t`. */
  function Count(trace: seq<Command>, t: Tag): nat {
    CountTag(Tags(trace), t)
  }

  function Optional(present: bool, t: Tag): seq<Tag> {
    if present then [t] else []
  }

  lemma OptionalCount(present: bool, u: Tag, t: Tag)
    ensures CountTag(Optional(present, u), t) == Indicator(present && u == t)
  {
    if present {
      CountTagSingle(u, t);
    }
  }

  /** The kinds of command square `sq` is drawn with, in order. */
  function SquareShape(sc: Scene, sq: Square): seq<Tag> {
    [FillTag]
    + Optional(sq in sc.marks, OverlayTag)
    + Optional(PieceAt(sc.board, sq) != NoPiece, GlyphTag)
    + Optional(File(sq) == FILE_A, RankTextTag)
    + Optional(Rank(sq) == RANK_1, FileTextTag)
  }

  lemma FillShape(sc: Scene, sq: Square)
    ensures Tags(FillCommands(sc, sq)) == [FillTag] + Optional(sq in sc.marks, OverlayTag)
  {
  }

  lemma GlyphShape(sc: Scene, sq: Square)
    ensures Tags(GlyphCommands(sc, sq)) == Optional(PieceAt(sc.board, sq) != NoPiece, GlyphTag)
  {
  }

  lemma LabelShape(sc: Scene, sq: Square)
    ensures Tags(LabelCommands(sc, sq)) == Optional(File(sq) == FILE_A, RankTextTag) + Optional(Rank(sq) == RANK_1, FileTextTag)
  {
  }

  /** Each square is drawn as exactly: its fill, an overlay iff it is marked,
      a glyph iff it is occupied, a rank label iff it is on file a, and a file
      label iff it is on rank 1. */
  lemma SquareTags(sc: Scene, sq: Square)
    ensures Tags(SquareCommands(sc, sq)) == SquareShape(sc, sq)
  {
    var fill, glyph, labels := FillCommands(sc, sq), GlyphCommands(sc, sq), LabelCommands(sc, sq);
    TagsConcat(fill + glyph, labels);
    TagsConcat(fill, glyph);
    FillShape(sc, sq);
    GlyphShape(sc, sq);
    LabelShape(sc, sq);
  }

  /** The kinds of command squares 0..n-1 are drawn with, in order. */
  function DrawnShape(sc: Scene, n: nat): seq<Tag>
    requires n <= 64
  {
    if n == 0 then [] else DrawnShape(sc, n - 1) + SquareShape(sc, n - 1)
  }

  lemma {:induction false} DrawnTags(sc: Scene, n: nat)
    requires n <= 64
    ensures Tags(Drawn(sc, n)) == DrawnShape(sc, n)
  {
    if n > 0 {
      var sq: Square := n - 1;
      DrawnTags(sc, n - 1);
      TagsConcat(Drawn(sc, n - 1), SquareCommands(sc, sq));
      SquareTags(sc, sq);
    }
  }

  /** The kinds of command in the trace of an encoding that stops at square
      `k`: Init, squares 0..k-1, then End if no write failed, or else the fill,
      the overlay if marked, and the glyph of square k. */
  function TraceShape(sc: Scene, k: nat): seq<Tag>
    requires k <= 64
  {
    [InitTag] + DrawnShape(sc, k) + TailShape(sc, k)
  }

  function TailShape(sc: Scene, k: nat): seq<Tag> {
    if k == 64 then [EndTag] else [FillTag] + Optional(k in sc.marks, OverlayTag) + [GlyphTag]
  }

  /** Init, then squares 0..n-1. */
  lemma PrefixTags(sc: Scene, w: int, h: int, n: nat)
    requires n <= 64
    ensures Tags([Init(w, h)] + Drawn(sc, n)) == [InitTag] + DrawnShape(sc, n)
  {
    DrawnTags(sc, n);
    TagsSingle(Init(w, h));
    TagsConcat([Init(w, h)], Drawn(sc, n));
  }

  lemma CompleteTags(sc: Scene, f: SvgFormat, faults: Faults)
    requires FirstGlyphFailure(sc, faults, 0) == 64
    ensures Tags(Encoding(sc, f, faults).0) == TraceShape(sc, FirstGlyphFailure(sc, faults, 0))
  {
    var k := FirstGlyphFailure(sc, faults, 0);
    var prefix := [Init(f.width, f.height)] + Drawn(sc, k);
    PrefixTags(sc, f.width, f.height, k);
    TagsConcat(prefix, [End]);
    TagsSingle(End);
  }

  lemma CutShortShape(sc: Scene, sq: Square)
    requires PieceAt(sc.board, sq) != NoPiece
    ensures Tags(CutShort(sc, sq)) == [FillTag] + Optional(sq in sc.marks, OverlayTag) + [GlyphTag]
  {
    TagsConcat(FillCommands(sc, sq), GlyphCommands(sc, sq));
    FillShape(sc, sq);
    GlyphShape(sc, sq);
  }

  lemma FailedTags(sc: Scene, f: SvgFormat, faults: Faults)
    requires FirstGlyphFailure(sc, faults, 0) < 64
    ensures Tags(Encoding(sc, f, faults).0) == TraceShape(sc, FirstGlyphFailure(sc, faults, 0))
  {
    var k := FirstGlyphFailure(sc, faults, 0);
    var prefix := [Init(f.width, f.height)] + Drawn(sc, k);
    PrefixTags(sc, f.width, f.height, k);
    TagsConcat(prefix, CutShort(sc, k));
    CutShortShape(sc, k);
  }

  /** Squares below `n` that carry a mark. */
  function MarkedBelow(m: Marks, n: nat): nat
    requires n <= 64
  {
    if n == 0 then 0 else MarkedBelow(m, n - 1) + Indicator(n - 1 in m)
  }

  /** Squares below `n` that hold a piece. */
  function OccupiedBelow(b: Board, n: nat): nat
    requires n <= 64
  {
    if n == 0 then 0 else OccupiedBelow(b, n - 1) + Indicator(PieceAt(b, n - 1) != NoPiece)
  }

  /** Counting marked squares one by one gives the number of marks. */
  lemma {:induction false} MarkedBelowIsCardinality(m: Marks, n: nat)
    requires n <= 64
    ensures MarkedBelow(m, n) == |set sq: Square | sq < n && sq in m|
  {
    if n > 0 {
      MarkedBelowIsCardinality(m, n - 1);
      var below := set sq: Square | sq < n - 1 && sq in m;
      var upTo := set sq: Square | sq < n && sq in m;
      if n - 1 in m {
        assert upTo == below + {n - 1};
      } else {
        assert upTo == below;
      }
    }
  }

  lemma AllMarksBelow64(m: Marks)
    ensures MarkedBelow(m, 64) == |m|
  {
    MarkedBelowIsCardinality(m, 64);
    assert (set sq: Square | sq < 64 && sq in m) == m.Keys;
  }

  /** Squares below `n` on file a. */
  function OnFileABelow(n: nat): nat
    requires n <= 64
  {
    if n == 0 then 0 else OnFileABelow(n - 1) + Indicator(File(n - 1) == FILE_A)
  }

  /** Squares below `n` on rank 1. */
  function OnRank1Below(n: nat): nat
    requires n <= 64
  {
    if n == 0 then 0 else OnRank1Below(n - 1) + Indicator(Rank(n - 1) == RANK_1)
  }

  /** One square in eight is on file a: one for each rank begun. */
  lemma {:induction false} OnFileABelowCount(n: nat)
    requires n <= 64
    ensures OnFileABelow(n) == (n + 7) / 8
  {
    if n > 0 {
      OnFileABelowCount(n - 1);
      var q, r := (n - 1) / 8, (n - 1) % 8;
      assert n - 1 == 8 * q + r && 0 <= r < 8;
      assert (n + 6) / 8 == q + (if r == 0 then 0 else 1);
      assert (n + 7) / 8 == q + 1;
    }
  }

  /** The first eight squares are rank 1. */
  lemma {:induction false} OnRank1BelowCount(n: nat)
    requires n <= 64
    ensures OnRank1Below(n) == if n < 8 then n else 8
  {
    if n > 0 {
      OnRank1BelowCount(n - 1);
    }
  }

  /** How many commands of kind `t` squares 0..n-1 draw, none failing. */
  function Expected(sc: Scene, n: nat, t: Tag): nat
    requires n <= 64
  {
    if n == 0 then 0 else Expected(sc, n - 1, t) + SquareExpected(sc, n - 1, t)
  }

  /** Per kind: one fill per square, one overlay per marked square, one glyph
      per occupied square, one rank label per square on file a, one file label
      per square on rank 1, and neither Init nor End. */
  lemma {:induction false} ExpectedByKind(sc: Scene, n: nat)
    requires n <= 64
    ensures Expected(sc, n, FillTag) == n
    ensures Expected(sc, n, OverlayTag) == MarkedBelow(sc.marks, n)
    ensures Expected(sc, n, GlyphTag) == OccupiedBelow(sc.board, n)
    ensures Expected(sc, n, InitTag) == 0 && Expected(sc, n, EndTag) == 0
  {
    if n > 0 {
      ExpectedByKind(sc, n - 1);
    }
  }

  lemma {:induction false} ExpectedLabels(sc: Scene, n: nat)
    requires n <= 64
    ensures Expected(sc, n, RankTextTag) == OnFileABelow(n)
    ensures Expected(sc, n, FileTextTag) == OnRank1Below(n)
  {
    if n > 0 {
      ExpectedLabels(sc, n - 1);
    }
  }

  /** The commands of kind `t` that square `sq` adds. */
  function SquareExpected(sc: Scene, sq: Square, t: Tag): nat {
    Indicator(t == FillTag)
    + Indicator(t == OverlayTag && sq in sc.marks)
    + Indicator(t == GlyphTag && PieceAt(sc.board, sq) != NoPiece)
    + Indicator(t == RankTextTag && File(sq) == FILE_A)
    + Indicator(t == FileTextTag && Rank(sq) == RANK_1)
  }

  lemma ShapeCount(sc: Scene, sq: Square, t: Tag)
    ensures CountTag(SquareShape(sc, sq), t) == SquareExpected(sc, sq, t)
  {
    var marked := Optional(sq in sc.marks, OverlayTag);
    var occupied := Optional(PieceAt(sc.board, sq) != NoPiece, GlyphTag);
    var onFileA := Optional(File(sq) == FILE_A, RankTextTag);
    var onRank1 := Optional(Rank(sq) == RANK_1, FileTextTag);
    CountTagConcat([FillTag] + marked + occupied + onFileA, onRank1, t);
    CountTagConcat([FillTag] + marked + occupied, onFileA, t);
    CountTagConcat([FillTag] + marked, occupied, t);
    CountTagConcat([FillTag], marked, t);
    CountTagSingle(FillTag, t);
    OptionalCount(sq in sc.marks, OverlayTag, t);
    OptionalCount(PieceAt(sc.board, sq) != NoPiece, GlyphTag, t);
    OptionalCount(File(sq) == FILE_A, RankTextTag, t);
    OptionalCount(Rank(sq) == RANK_1, FileTextTag, t);
  }

  lemma {:induction false} DrawnShapeCount(sc: Scene, n: nat, t: Tag)
    requires n <= 64
    ensures CountTag(DrawnShape(sc, n), t) == Expected(sc, n, t)
  {
    if n > 0 {
      DrawnShapeCount(sc, n - 1, t);
      DrawnShapeStep(sc, n, t);
    }
  }

  lemma DrawnShapeStep(sc: Scene, n: nat, t: Tag)
    requires 0 < n <= 64
    ensures CountTag(DrawnShape(sc, n), t) == CountTag(DrawnShape(sc, n - 1), t) + SquareExpected(sc, n - 1, t)
  {
    CountTagConcat(DrawnShape(sc, n - 1), SquareShape(sc, n - 1), t);
    ShapeCount(sc, n - 1, t);
  }

  /** The first `n` squares: `n` fills, one overlay per marked square, one glyph
      per occupied square, a rank label per square on file a and a file label
      per square on rank 1; no Init and no End. */
  lemma DrawnCount(sc: Scene, n: nat, t: Tag)
    requires n <= 64
    ensures Count(Drawn(sc, n), t) == Expected(sc, n, t)
  {
    DrawnTags(sc, n);
    DrawnShapeCount(sc, n, t);
  }

  /** Encoding ends without error exactly when no glyph write fails. */
  lemma EncodingSucceedsIff(sc: Scene, f: SvgFormat, faults: Faults)
    ensures Encoding(sc, f, faults).1 == Ok <==> forall sq: Square :: !GlyphFails(sc, faults, sq)
  {
    var k := FirstGlyphFailure(sc, faults, 0);
    if k < 64 {
      var sq: Square := k;
      assert GlyphFails(sc, faults, sq);
    }
  }

  /** The commands of each kind in a trace shaped as an encoding that stops
      at square `k`. */
  lemma ShapedTraceCount(trace: seq<Command>, sc: Scene, k: nat, t: Tag)
    requires k <= 64 && Tags(trace) == TraceShape(sc, k)
    ensures Count(trace, t) == Indicator(t == InitTag) + Expected(sc, k, t) + CountTag(TailShape(sc, k), t)
  {
    CountTagConcat([InitTag] + DrawnShape(sc, k), TailShape(sc, k), t);
    CountTagConcat([InitTag], DrawnShape(sc, k), t);
    CountTagSingle(InitTag, t);
    DrawnShapeCount(sc, k, t);
  }

  lemma CompleteCounts(trace: seq<Command>, sc: Scene, k: nat)
    requires k == 64 && Tags(trace) == TraceShape(sc, k)
    ensures Count(trace, FillTag) == 64 && Count(trace, OverlayTag) == |sc.marks|
    ensures Count(trace, GlyphTag) == OccupiedBelow(sc.board, k)
  {
    ShapedTraceCount(trace, sc, k, FillTag);
    ShapedTraceCount(trace, sc, k, OverlayTag);
    ShapedTraceCount(trace, sc, k, GlyphTag);
    CountTagSingle(EndTag, FillTag);
    CountTagSingle(EndTag, OverlayTag);
    CountTagSingle(EndTag, GlyphTag);
    ExpectedByKind(sc, k);
    AllMarksBelow64(sc.marks);
  }

  lemma CompleteLabelCounts(trace: seq<Command>, sc: Scene, k: nat)
    requires k == 64 && Tags(trace) == TraceShape(sc, k)
    ensures Count(trace, RankTextTag) == 8 && Count(trace, FileTextTag) == 8
  {
    ShapedTraceCount(trace, sc, k, RankTextTag);
    ShapedTraceCount(trace, sc, k, FileTextTag);
    CountTagSingle(EndTag, RankTextTag);
    CountTagSingle(EndTag, FileTextTag);
    ExpectedLabels(sc, k);
    OnFileABelowCount(k);
    OnRank1BelowCount(k);
  }

  lemma CompleteEndCounts(trace: seq<Command>, sc: Scene, k: nat)
    requires k == 64 && Tags(trace) == TraceShape(sc, k)
    ensures Count(trace, InitTag) == 1 && Count(trace, EndTag) == 1
  {
    ShapedTraceCount(trace, sc, k, InitTag);
    ShapedTraceCount(trace, sc, k, EndTag);
    CountTagSingle(EndTag, InitTag);
    CountTagSingle(EndTag, EndTag);
    ExpectedByKind(sc, k);
  }

  lemma FailedCounts(trace: seq<Command>, sc: Scene, k: nat)
    requires k < 64 && Tags(trace) == TraceShape(sc, k)
    ensures Count(trace, FillTag) == k + 1
    ensures Count(trace, GlyphTag) == OccupiedBelow(sc.board, k) + 1
    ensures Count(trace, EndTag) == 0
  {
    var marked := Optional(k in sc.marks, OverlayTag);
    forall t
      ensures CountTag(TailShape(sc, k), t)
        == Indicator(t == FillTag) + Indicator(t == OverlayTag && k in sc.marks) + Indicator(t == GlyphTag)
    {
      CountTagConcat([FillTag] + marked, [GlyphTag], t);
      CountTagConcat([FillTag], marked, t);
      CountTagSingle(FillTag, t);
      CountTagSingle(GlyphTag, t);
      OptionalCount(k in sc.marks, OverlayTag, t);
    }
    ShapedTraceCount(trace, sc, k, FillTag);
    ShapedTraceCount(trace, sc, k, GlyphTag);
    ShapedTraceCount(trace, sc, k, EndTag);
    ExpectedByKind(sc, k);
  }

  /** A complete encoding starts with Init, ends with End, holds one of each,
      and reports no error. */
  lemma CompleteEncodingEnds(sc: Scene, f: SvgFormat, faults: Faults)
    requires forall sq: Square :: !GlyphFails(sc, faults, sq)
    ensures var (trace, err) := Encoding(sc, f, faults);
      && err == Ok
      && trace[0] == Init(f.width, f.height) && trace[|trace| - 1] == End
      && Count(trace, InitTag) == 1 && Count(trace, EndTag) == 1
  {
    CompleteTags(sc, f, faults);
    CompleteEndCounts(Encoding(sc, f, faults).0, sc, FirstGlyphFailure(sc, faults, 0));
  }

  /** A complete encoding: 64 fills, one overlay per mark, one glyph per
      occupied square, 8 rank labels and 8 file labels. */
  lemma CompleteEncodingCounts(sc: Scene, f: SvgFormat, faults: Faults)
    requires forall sq: Square :: !GlyphFails(sc, faults, sq)
    ensures var trace := Encoding(sc, f, faults).0;
      && Count(trace, FillTag) == 64
      && Count(trace, OverlayTag) == |sc.marks|
      && Count(trace, GlyphTag) == OccupiedBelow(sc.board, 64)
      && Count(trace, RankTextTag) == 8 && Count(trace, FileTextTag) == 8
  {
    CompleteTags(sc, f, faults);
    CompleteCounts(Encoding(sc, f, faults).0, sc, FirstGlyphFailure(sc, faults, 0));
    CompleteLabelCounts(Encoding(sc, f, faults).0, sc, FirstGlyphFailure(sc, faults, 0));
  }

  /** An empty board draws no glyph, so it cannot fail: 64 fills, no glyph,
      8 rank labels and 8 file labels. */
  lemma EmptyBoardEncoding(sc: Scene, f: SvgFormat, faults: Faults)
    requires forall sq: Square :: PieceAt(sc.board, sq) == NoPiece
    ensures var (trace, err) := Encoding(sc, f, faults);
      && err == Ok
      && Count(trace, FillTag) == 64 && Count(trace, GlyphTag) == 0
      && Count(trace, RankTextTag) == 8 && Count(trace, FileTextTag) == 8
  {
    NoneOccupied(sc.board, 64);
    CompleteEncodingEnds(sc, f, faults);
    CompleteEncodingCounts(sc, f, faults);
  }

  lemma {:induction false} NoneOccupied(b: Board, n: nat)
    requires n <= 64
    requires forall sq: Square :: PieceAt(b, sq) == NoPiece
    ensures OccupiedBelow(b, n) == 0
  {
    if n > 0 {
      NoneOccupied(b, n - 1);
    }
  }

  /** When the glyph write of square k fails, the error returned is that
      write's and the trace ends with that glyph. */
  lemma FailureEndsWithGlyph(sc: Scene, f: SvgFormat, faults: Faults)
    requires FirstGlyphFailure(sc, faults, 0) < 64
    ensures var k := FirstGlyphFailure(sc, faults, 0); var (trace, err) := Encoding(sc, f, faults);
      var (x, y) := XyForSquare(k);
      && err == Err(faults.glyphErrors[k])
      && trace[|trace| - 1] == Glyph(x, y, PieceXml(sc.asset, x, y, PieceAt(sc.board, k)))
  {
  }

  /** When the glyph write of square k fails, squares 0..k are filled, and
      nothing after that glyph is drawn: no later square and no End. */
  lemma FailureStopsEncoding(sc: Scene, f: SvgFormat, faults: Faults)
    requires FirstGlyphFailure(sc, faults, 0) < 64
    ensures var k := FirstGlyphFailure(sc, faults, 0); var trace := Encoding(sc, f, faults).0;
      && Count(trace, FillTag) == k + 1
      && Count(trace, GlyphTag) == OccupiedBelow(sc.board, k) + 1
      && Count(trace, EndTag) == 0
  {
    FailedTags(sc, f, faults);
    FailedCounts(Encoding(sc, f, faults).0, sc, FirstGlyphFailure(sc, faults, 0));
  }

  /** The Fill commands of a trace, in order. */
  function Fills(trace: seq<Command>): seq<Command> {
    if trace == [] then []
    else Fills(trace[..|trace| - 1]) + (if trace[|trace| - 1].Fill? then [trace[|trace| - 1]] else [])
  }

  lemma {:induction false} FillsConcat(a: seq<Command>, b: seq<Command>)
    ensures Fills(a + b) == Fills(a) + Fills(b)
    decreases |b|
  {
    if b == [] {
      assert a + b == a;
    } else {
      assert (a + b)[..|a + b| - 1] == a + b[..|b| - 1];
      FillsConcat(a, b[..|b| - 1]);
    }
  }

  /** The fill of square `sq` under settings `s`. */
  function SquareFill(s: Settings, sq: Square): Command {
    var (x, y) := XyForSquare(sq);
    Fill(x, y, ColorForSquare(s, sq))
  }

  /** The fills of squares 0..n-1 in ascending order. */
  function FillsUpTo(s: Settings, n: nat): (r: seq<Command>)
    requires n <= 64
    ensures |r| == n
  {
    if n == 0 then [] else FillsUpTo(s, n - 1) + [SquareFill(s, n - 1)]
  }

  /** The fills of squares 0..n-1 are in ascending order of square. */
  lemma {:induction false} FillsUpToAt(s: Settings, n: nat, sq: Square)
    requires sq < n <= 64
    ensures FillsUpTo(s, n)[sq] == SquareFill(s, sq)
  {
    if sq < n - 1 {
      FillsUpToAt(s, n - 1, sq);
    }
  }

  lemma FillsOfFillCommands(sc: Scene, sq: Square)
    ensures Fills(FillCommands(sc, sq)) == [SquareFill(sc.settings, sq)]
  {
    var (x, y) := XyForSquare(sq);
    var fill := SquareFill(sc.settings, sq);
    assert Fills([fill]) == [fill] by {
      assert [fill][..0] == [];
    }
    if sq in sc.marks {
      var overlay := Overlay(x, y, sc.settings.sqWidth, sc.settings.sqHeight, sc.marks[sq]);
      assert FillCommands(sc, sq) == [fill, overlay];
      assert [fill, overlay][..1] == [fill];
    } else {
      assert FillCommands(sc, sq) == [fill];
    }
  }

  lemma {:induction false} NoFills(trace: seq<Command>)
    requires forall i :: 0 <= i < |trace| ==> !trace[i].Fill?
    ensures Fills(trace) == []
  {
    if trace != [] {
      NoFills(trace[..|trace| - 1]);
    }
  }

  lemma FillsOfLabelCommands(sc: Scene, sq: Square)
    ensures Fills(LabelCommands(sc, sq)) == []
  {
    NoFills(LabelCommands(sc, sq));
  }

  /** Of one square's commands, only the first is a fill, and it is the square's. */
  lemma SquareFills(sc: Scene, sq: Square)
    ensures Fills(SquareCommands(sc, sq)) == [SquareFill(sc.settings, sq)]
  {
    var fill, glyph, labels := FillCommands(sc, sq), GlyphCommands(sc, sq), LabelCommands(sc, sq);
    FillsConcat(fill + glyph, labels);
    FillsConcat(fill, glyph);
    FillsOfFillCommands(sc, sq);
    FillsOfLabelCommands(sc, sq);
    assert Fills(glyph) == [];
  }

  lemma {:induction false} DrawnFills(sc: Scene, n: nat)
    requires n <= 64
    ensures Fills(Drawn(sc, n)) == FillsUpTo(sc.settings, n)
  {
    if n > 0 {
      var sq: Square := n - 1;
      DrawnFills(sc, n - 1);
      FillsConcat(Drawn(sc, n - 1), SquareCommands(sc, sq));
      SquareFills(sc, sq);
    }
  }

  lemma FillsSingle(c: Command)
    ensures Fills([c]) == if c.Fill? then [c] else []
  {
    assert [c][..0] == [];
  }

  /** Init draws no square: the fills of Init and squares 0..n-1 are theirs. */
  lemma PrefixFills(sc: Scene, w: int, h: int, n: nat)
    requires n <= 64
    ensures Fills([Init(w, h)] + Drawn(sc, n)) == FillsUpTo(sc.settings, n)
  {
    FillsConcat([Init(w, h)], Drawn(sc, n));
    FillsSingle(Init(w, h));
    DrawnFills(sc, n);
  }

  lemma CompleteFills(sc: Scene, f: SvgFormat, faults: Faults)
    requires FirstGlyphFailure(sc, faults, 0) == 64
    ensures Fills(Encoding(sc, f, faults).0) == FillsUpTo(sc.settings, FirstGlyphFailure(sc, faults, 0))
  {
    var k := FirstGlyphFailure(sc, faults, 0);
    var prefix := [Init(f.width, f.height)] + Drawn(sc, k);
    PrefixFills(sc, f.width, f.height, k);
    FillsConcat(prefix, [End]);
    FillsSingle(End);
  }

  /** The last square drawn before a failure adds its own fill and nothing else. */
  lemma FailedSquareFills(sc: Scene, sq: Square)
    requires PieceAt(sc.board, sq) != NoPiece
    ensures Fills(CutShort(sc, sq)) == [SquareFill(sc.settings, sq)]
  {
    var (x, y) := XyForSquare(sq);
    FillsConcat(FillCommands(sc, sq), GlyphCommands(sc, sq));
    FillsOfFillCommands(sc, sq);
    FillsSingle(Glyph(x, y, PieceXml(sc.asset, x, y, PieceAt(sc.board, sq))));
  }

  lemma FailedFills(sc: Scene, f: SvgFormat, faults: Faults)
    requires FirstGlyphFailure(sc, faults, 0) < 64
    ensures Fills(Encoding(sc, f, faults).0) == FillsUpTo(sc.settings, FirstGlyphFailure(sc, faults, 0) + 1)
  {
    var k: Square := FirstGlyphFailure(sc, faults, 0);
    var prefix := [Init(f.width, f.height)] + Drawn(sc, k);
    FillsConcat(prefix, CutShort(sc, k));
    PrefixFills(sc, f.width, f.height, k);
    FailedSquareFills(sc, k);
  }

  /** Squares are visited in ascending order, each once: the i-th fill of the
      trace is the fill of square i, in its own cell and colour, and the fills
      stop after the square whose glyph write failed, if any. */
  lemma SquaresInOrder(sc: Scene, f: SvgFormat, faults: Faults)
    ensures var k := FirstGlyphFailure(sc, faults, 0); var fills := Fills(Encoding(sc, f, faults).0);
      && |fills| == (if k == 64 then 64 else k + 1)
      && forall sq: Square :: sq < |fills| ==> fills[sq] == SquareFill(sc.settings, sq)
  {
    var k := FirstGlyphFailure(sc, faults, 0);
    if k == 64 {
      CompleteFills(sc, f, faults);
    } else {
      FailedFills(sc, f, faults);
    }
    var n := if k == 64 then 64 else k + 1;
    forall sq: Square | sq < n
      ensures FillsUpTo(sc.settings, n)[sq] == SquareFill(sc.settings, sq)
    {
      FillsUpToAt(sc.settings, n, sq);
    }
  }

  /** How many of `fills` use colour `c`. */
  function ColorCount(fills: seq<Command>, c: Color): nat {
    if fills == [] then 0
    else ColorCount(fills[..|fills| - 1], c) + Indicator(fills[|fills| - 1].Fill? && fills[|fills| - 1].color == c)
  }

  /** Even squares below `n`. */
  function EvenBelow(n: nat): nat
    requires n <= 64
  {
    if n == 0 then 0 else EvenBelow(n - 1) + Indicator(EvenSquare(n - 1))
  }

  /** Of the squares 2j and 2j+1, which share a rank, exactly one is even. */
  lemma {:induction false} EvenBelowHalf(j: nat)
    requires j <= 32
    ensures EvenBelow(2 * j) == j
  {
    if j > 0 {
      EvenBelowHalf(j - 1);
      PairOnOneRank(j - 1);
    }
  }

  lemma PairOnOneRank(i: nat)
    requires i < 32
    ensures File(2 * i + 1) == File(2 * i) + 1 && Rank(2 * i + 1) == Rank(2 * i)
    ensures EvenSquare(2 * i) != EvenSquare(2 * i + 1)
  {
    var q, r := i / 4, i % 4;
    assert 2 * i == 8 * q + 2 * r && 2 * r + 1 < 8;
  }

  lemma {:induction false} DarkFillsUpTo(s: Settings, n: nat)
    requires n <= 64 && s.light != s.dark
    ensures ColorCount(FillsUpTo(s, n), s.dark) == EvenBelow(n)
  {
    if n > 0 {
      DarkFillsUpTo(s, n - 1);
      assert FillsUpTo(s, n)[..n - 1] == FillsUpTo(s, n - 1);
    }
  }

  lemma {:induction false} LightFillsUpTo(s: Settings, n: nat)
    requires n <= 64 && s.light != s.dark
    ensures ColorCount(FillsUpTo(s, n), s.light) + EvenBelow(n) == n
  {
    if n > 0 {
      LightFillsUpTo(s, n - 1);
      assert FillsUpTo(s, n)[..n - 1] == FillsUpTo(s, n - 1);
    }
  }

  /** With two distinct colours, a complete board has 32 dark and 32 light squares. */
  lemma HalfTheSquaresAreDark(sc: Scene, f: SvgFormat, faults: Faults)
    requires forall sq: Square :: !GlyphFails(sc, faults, sq)
    requires sc.settings.light != sc.settings.dark
    ensures ColorCount(Fills(Encoding(sc, f, faults).0), sc.settings.dark) == 32
    ensures ColorCount(Fills(Encoding(sc, f, faults).0), sc.settings.light) == 32
  {
    EncodingSucceedsIff(sc, f, faults);
    CompleteFills(sc, f, faults);
    DarkFillsUpTo(sc.settings, 64);
    LightFillsUpTo(sc.settings, 64);
    EvenBelowHalf(32);
  }

  /** The same scene drawn with other light and dark colours. */
  function Recoloured(sc: Scene, light: Color, dark: Color): Scene {
    sc.(settings := sc.settings.(light := light, dark := dark))
  }

  /** SquareColors changes colour values only: with other colours the
      encoding issues the same kinds of command, in the same order, and
      returns the same result. */
  lemma RecolouringKeepsShape(sc: Scene, f: SvgFormat, faults: Faults, light: Color, dark: Color)
    ensures Tags(Encoding(Recoloured(sc, light, dark), f, faults).0) == Tags(Encoding(sc, f, faults).0)
    ensures Encoding(Recoloured(sc, light, dark), f, faults).1 == Encoding(sc, f, faults).1
  {
    var other := Recoloured(sc, light, dark);
    var k := FirstGlyphFailure(sc, faults, 0);
    SameFailures(other, sc, faults, 0);
    RecolouredShape(sc, light, dark, k);
    if k == 64 {
      CompleteTags(sc, f, faults);
      CompleteTags(other, f, faults);
    } else {
      FailedTags(sc, f, faults);
      FailedTags(other, f, faults);
    }
  }

  lemma {:induction false} RecolouredShape(sc: Scene, light: Color, dark: Color, n: nat)
    requires n <= 64
    ensures DrawnShape(Recoloured(sc, light, dark), n) == DrawnShape(sc, n)
  {
    if n > 0 {
      RecolouredShape(sc, light, dark, n - 1);
    }
  }

  /** The same scene with the flip flag toggled. */
  function Flipped(sc: Scene): Scene {
    sc.(settings := sc.settings.(flip := !sc.settings.flip))
  }

  /** Nothing in the encoding reads the flip flag: flipping draws the same board. */
  lemma FlipIgnored(sc: Scene, f: SvgFormat, faults: Faults)
    ensures Encoding(Flipped(sc), f, faults) == Encoding(sc, f, faults)
  {
    FlipIgnoredComplete(sc, f, faults);
    FlipIgnoredFailed(sc, f, faults);
  }

  lemma FlipIgnoredComplete(sc: Scene, f: SvgFormat, faults: Faults)
    ensures FirstGlyphFailure(sc, faults, 0) == 64 ==> Encoding(Flipped(sc), f, faults) == Encoding(sc, f, faults)
  {
    SameFailures(Flipped(sc), sc, faults, 0);
    FlippedDrawing(sc, FirstGlyphFailure(sc, faults, 0));
  }

  lemma FlipIgnoredFailed(sc: Scene, f: SvgFormat, faults: Faults)
    ensures FirstGlyphFailure(sc, faults, 0) < 64 ==> Encoding(Flipped(sc), f, faults) == Encoding(sc, f, faults)
  {
    var k := FirstGlyphFailure(sc, faults, 0);
    SameFailures(Flipped(sc), sc, faults, 0);
    FlippedDrawing(sc, k);
    if k < 64 {
      FlippedCutShort(sc, k);
    }
  }

  lemma {:induction false} SameFailures(a: Scene, b: Scene, faults: Faults, from: nat)
    requires from <= 64 && a.board == b.board
    ensures FirstGlyphFailure(a, faults, from) == FirstGlyphFailure(b, faults, from)
    decreases 64 - from
  {
    if from < 64 {
      SameFailures(a, b, faults, from + 1);
    }
  }

  lemma FlippedSquare(sc: Scene, sq: Square)
    ensures FillCommands(Flipped(sc), sq) == FillCommands(sc, sq)
    ensures GlyphCommands(Flipped(sc), sq) == GlyphCommands(sc, sq)
    ensures LabelCommands(Flipped(sc), sq) == LabelCommands(sc, sq)
  {
  }

  lemma FlippedCutShort(sc: Scene, sq: Square)
    ensures CutShort(Flipped(sc), sq) == CutShort(sc, sq)
  {
    FlippedSquare(sc, sq);
  }

  lemma FlippedSquareCommands(sc: Scene, sq: Square)
    ensures SquareCommands(Flipped(sc), sq) == SquareCommands(sc, sq)
  {
    FlippedSquare(sc, sq);
  }

  lemma FlippedDrawing(sc: Scene, n: nat)
    requires n <= 64
    ensures Drawn(Flipped(sc), n) == Drawn(sc, n)
  {
    forall sq: Square
      ensures SquareCommands(Flipped(sc), sq) == SquareCommands(sc, sq)
    {
      FlippedSquareCommands(sc, sq);
    }
    SameDrawing(Flipped(sc), sc, n);
  }

  /** Scenes that draw every square alike draw squares 0..n-1 alike. */
  lemma {:induction false} SameDrawing(a: Scene, b: Scene, n: nat)
    requires n <= 64
    requires forall sq: Square :: SquareCommands(a, sq) == SquareCommands(b, sq)
    ensures Drawn(a, n) == Drawn(b, n)
  {
    if n > 0 {
      SameDrawing(a, b, n - 1);
    }
  }

  /** Errors reported by Init and by square fills are dropped: they do not
      change the trace or the result. */
  lemma SinkErrorsIgnored(sc: Scene, f: SvgFormat, faults: Faults, initError: Outcome, squareErrors: map<Square, Error>)
    ensures Encoding(sc, f, faults.(initError := initError, squareErrors := squareErrors)) == Encoding(sc, f, faults)
  {
    var other := faults.(initError := initError, squareErrors := squareErrors);
    GlyphErrorsDecide(sc, faults, other, 0);
  }

  lemma {:induction false} GlyphErrorsDecide(sc: Scene, a: Faults, b: Faults, from: nat)
    requires from <= 64 && a.glyphErrors == b.glyphErrors
    ensures FirstGlyphFailure(sc, a, from) == FirstGlyphFailure(sc, b, from)
    decreases 64 - from
  {
    if from < 64 {
      GlyphErrorsDecide(sc, a, b, from + 1);
    }
  }

  /** A piece on a1, the square marked: its commands are the fill, the
      overlay, the glyph, then both labels, since a1 is on file a and rank 1. */
  lemma MarkedCornerSquare(sc: Scene, p: Piece, c: Color)
    requires sc.marks == map[0 := c] && PieceAt(sc.board, 0) == p && p != NoPiece
    ensures var cmds := SquareCommands(sc, 0);
      && |cmds| == 5
      && cmds[0] == Fill(0, 7, sc.settings.dark)
      && cmds[1] == Overlay(0, 7, sc.settings.sqWidth, sc.settings.sqHeight, c)
      && cmds[2].Glyph? && cmds[2].x == 0 && cmds[2].y == 7
      && cmds[3].RankText? && cmds[3].text == "1" && cmds[3].color == sc.settings.light
      && cmds[4].FileText? && cmds[4].text == "a" && cmds[4].color == sc.settings.light
  {
  }
}
