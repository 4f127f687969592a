# A model of the chess board image encoder

This project models `image/image.go` of the `chess` Go package in Dafny. That file draws a chess position as an SVG picture.

- **Options.** `new` starts from a fixed configuration:
  - 45 by 45 squares, not flipped;
  - light colour RGBA(235, 209, 166, 1) and dark colour RGBA(165, 117, 81, 1);
  - no marked squares.

  It then applies the caller's options (`Flip`, `SquareColors`, `MarkSquares`) to that configuration and to the encoder's marks.
- **Encode.** Squares 0 to 63 are visited in order. Each is drawn as:
  1. its fill, dark when file + rank is even and light otherwise;
  2. a translucent overlay if it is marked;
  3. the piece's glyph if it is occupied;
  4. a rank label on file a;
  5. a file label on rank 1.

  Labels use the colour the square does not use. A glyph write that fails ends the encoding with that error. Errors from the output format's `Init` and `DrawSquare` are dropped.
- **pieceXML.** A glyph is the embedded file `pieces/<w|b><K|Q|R|B|N|P>.svg`. Its first 45 by 45 header is replaced by a 360 by 360 header whose viewBox origin is (−x, −y).

## How the model is built

- **Drawing is recorded, not performed.** The output sink and the SVG canvas become a trace of `Command`s, one per call the encoder makes:
  - `Init`;
  - `Fill` (`DrawSquare`);
  - `Overlay` (the marked-square rectangle);
  - `Glyph` (the piece fragment written to the canvas);
  - `RankText` and `FileText`;
  - `End`.

  `Faults` says which writes report an error.
- **Embedded glyphs** are a parameter `asset: string -> string`, a total lookup from file name to file text.
- **`config` and `encoder` are classes** (`Image.Config`, `Image.Encoder`), because the option closures and `new` update them in place. `Options` gives, as values, what those updates compute:
  - `ApplyToConfig` and `ApplyToMarks` for one option;
  - `ResolveConfig` and `ResolveMarks` for a list.
- **`Encoding`** states the trace and result of `Encode` as a function. `Image.Encoder.Encode` is a loop proved equal to it. `TraceProperties` proves what such a trace holds.

### Where the model departs from the code as written

`image/image.go` does not compile. The model follows the evident intent in each case:

- Inside `Encode`, the names `canvas`, `sqWidth` and `sqHeight` are undefined. The canvas calls become trace commands, and the sizes are taken from `e.cfg.sqWidth`/`e.cfg.sqHeight`.
- `colorForSquare` and `colorForText` read `e.dark`/`e.light`, which `encoder` does not have. The model reads `e.cfg.dark`/`e.cfg.light`.
- `new` never stores the config in the encoder, so `e.cfg` would stay nil and `boardSize` would dereference nil. The model stores it (`Image.New`), and `Encode` requires a config.
- The `svgFormat` methods have no return statements. `Init` and `DrawSquare` are recorded as commands, and the errors they may report come from `Faults`.

## Model

| member | source | states |
|---|---|---|
| Options.ApplyToConfig | image/image.go:59-73 | `Flip` sets `flip` and nothing else; `SquareColors` sets both colours and nothing else; `MarkSquares` leaves the config alone; no option changes the square size |
| Options.MarkAll | image/image.go:79-85 | after `MarkSquares(c, sqs)` the marked squares are the old ones plus those listed; every listed square maps to `c`; other marks keep their colour |
| Options.ResolveFlipAndSize | image/image.go:59-62 | after a list of options the square size is unchanged, and `flip` is set iff it was set before or some option is `Flip` |
| Options.ResolveColors | image/image.go:68-73 | the last `SquareColors` decides both colours; without one the starting colours stay |
| Options.ResolveIdempotent | image/image.go:118-128 | applying the option list a second time, as `new` does, leaves the config as the first pass left it |
| Options.ResolveMarksAt | image/image.go:122-128 | a square is marked iff it was marked before or some `MarkSquares` lists it; its colour is that of the last such option, else its old colour |
| Options.ResolveMarksKeys | image/image.go:79-85 | options never unmark a square and mark only squares some option lists |
| Layout.ResolvedBoardSize | image/image.go:102-104 | `boardSize` of any configuration `new` builds is 360 by 360, eight 45-unit squares each way |
| Layout.GoQuot | image/image.go:171-176 | Go's integer division truncates toward zero: the remainder `a − b·q` has the sign of `a` and is smaller than `b` in size, for negative `a` too |
| Layout.XyForSquareInverse | image/image.go:199-203 | every square lands in a cell of the 8×8 grid (x = file, y = 7 − rank), and that cell gives the square back |
| Layout.SquareAtCellInverse | image/image.go:199-203 | every grid cell is the cell of a square |
| Layout.XyForSquareInjective | image/image.go:199-203 | no two squares share a cell |
| Layout.ColorForSquare | image/image.go:183-189 | a square is filled with one of the two configured colours |
| Layout.ColorForText | image/image.go:191-197 | a label is drawn in one of the two configured colours |
| Layout.SquareAndTextColors | image/image.go:183-197 | even squares (file + rank even) are dark with light text; odd squares are light with dark text |
| Layout.NeighboursAlternate | image/image.go:183-189 | a square's right-hand and upper neighbours are filled in the colour of its text, so the board alternates |
| Layout.LabelOffsetsAtDefaultSize | image/image.go:167-177 | with 45-unit squares, rank labels sit at (+2, +11) and file labels at (+42, +42) from the cell origin |
| Glyphs.AssetNameRoundTrip | image/image.go:210-227 | each piece has its own 13-character asset name, from which side and type read back; `NoPiece` gets `pieces/-.svg`, which names no glyph |
| Glyphs.NewHeaderOrigin | image/image.go:214 | the replacement header's viewBox origin reads back as (−x, −y) |
| Glyphs.PieceXmlReplacesHeader | image/image.go:212-215 | a glyph without the 45 by 45 header is returned unchanged; otherwise the text before and after the first header is kept, and the new header stands in its place |
| GoStrings.ReplaceFirst | image/image.go:215 | `strings.Replace(s, old, new, 1)` replaces only the first occurrence, or returns `s` if there is none |
| GoStrings.ParseFormatInt | image/image.go:214 | `%d` formatting of any integer, negative ones included, reads back to that integer |
| Image.Config.constructor | image/image.go:110-116 | the configuration `new` starts from is 45 by 45, not flipped, light (235, 209, 166, 1), dark (165, 117, 81, 1) |
| Image.Encoder.constructor | image/image.go:122-124 | an encoder holds the marks and the config it is given |
| Image.Apply | image/image.go:59-85 | calling an option closure updates the config as `ApplyToConfig` says and the marks as `ApplyToMarks` says, and nothing else |
| Image.New | image/image.go:109-130 | `new` returns a fresh encoder whose config is the defaults with the options applied once, left to right, and whose marks are the options' marks starting from none |
| Image.Svg | image/image.go:45-55 | `SVG` encodes with the resolved config and marks on a 360 by 360 format with 45-unit squares |
| Image.Encoder.Encode | image/image.go:140-181 | the loop records exactly `Encoding`: Init; squares 0..63 in order; End and no error, or a stop at the first failing glyph write with that write's error |
| Image.EncodeSquare | image/image.go:149-177 | one square: fill, overlay if marked, glyph if occupied, then labels; when the glyph write fails, drawing stops after the glyph and that error is returned |
| Image.FirstGlyphFailure | image/image.go:160-165 | finds the first occupied square at or after `from` whose glyph write fails, or 64 if none fails |
| TraceProperties.SquareTags | image/image.go:149-177 | each square is drawn as its fill, an overlay iff marked, a glyph iff occupied, a rank label iff on file a, a file label iff on rank 1, in that order |
| TraceProperties.DrawnCount | image/image.go:149-178 | the commands of each kind that squares 0..n−1 draw add up square by square |
| TraceProperties.ExpectedByKind | image/image.go:149-166 | squares 0..n−1 give n fills, one overlay per marked square among them, one glyph per occupied one, and no Init or End |
| TraceProperties.ExpectedLabels | image/image.go:167-177 | squares 0..n−1 give one rank label per square on file a and one file label per square on rank 1 |
| TraceProperties.OnFileABelowCount | image/image.go:169-172 | squares 0..n−1 include one square on file a per rank begun, eight in all |
| TraceProperties.OnRank1BelowCount | image/image.go:174-177 | rank 1 is the first eight squares, so eight file labels are drawn |
| TraceProperties.MarkedBelowIsCardinality | image/image.go:155-158 | counting the marked squares below n one by one gives the size of the set of marked squares below n |
| TraceProperties.EncodingSucceedsIff | image/image.go:160-180 | `Encode` returns nil iff no glyph write fails |
| TraceProperties.CompleteEncodingEnds | image/image.go:145-180 | a complete encoding starts with Init, ends with End, holds one of each, and reports no error |
| TraceProperties.CompleteEncodingCounts | image/image.go:149-178 | a complete encoding holds 64 fills, one overlay per marked square, one glyph per occupied square, 8 rank labels and 8 file labels |
| TraceProperties.EmptyBoardEncoding | image/image.go:149-180 | an empty board cannot fail: no error, 64 fills, no glyph, 8 rank labels and 8 file labels |
| TraceProperties.FailureEndsWithGlyph | image/image.go:160-165 | when the glyph write of square k fails, that write's error is returned and the trace ends with k's glyph |
| TraceProperties.FailureStopsEncoding | image/image.go:160-165 | after a failing glyph write on square k, only squares 0..k are filled, no later glyph is drawn, and End is never reached |
| TraceProperties.SquaresInOrder | image/image.go:149-154 | the i-th fill of the trace is square i's fill, in its cell and colour, and the fills stop after the failing square if there is one |
| TraceProperties.EvenBelowHalf | image/image.go:183-189 | squares 2j and 2j+1 share a rank and differ in colour, so exactly j of the first 2j squares are even (dark) |
| TraceProperties.HalfTheSquaresAreDark | image/image.go:183-189 | with two distinct colours, a complete board has exactly 32 dark fills and exactly 32 light fills |
| TraceProperties.RecolouringKeepsShape | image/image.go:68-73 | other square colours change colour values only: the encoding issues the same kinds of command in the same order and returns the same result |
| TraceProperties.FlipIgnored | image/image.go:140-181 | `Encode` never reads `flip`: toggling it gives the same trace and result |
| TraceProperties.SinkErrorsIgnored | image/image.go:145-154 | errors reported by `Init` and by `DrawSquare` change neither the trace nor the result |
| TraceProperties.MarkedCornerSquare | image/image.go:149-177 | an occupied, marked a1 is drawn as a dark fill in cell (0, 7), the overlay, the glyph, then its "1" and "a" labels in the light colour |

## Left out

- SVG text output and the `io.Writer`: drawing is a trace of commands. Style strings (`font-size`, `text-anchor`, `fill-opacity:0.2`) are not modelled.
- `colorToHex` (image.go:205-208): colours stay RGBA values in the trace. Its float rounding is not modelled.
- The bytes of the embedded glyph files: `internal.MustAsset` is the parameter `asset`, a total lookup, so its panic on a missing name is not modelled.
- `Flip` is stored as a flag only. Nothing in `Encode` reads it (see `TraceProperties.FlipIgnored`), so no flipped drawing is modelled.
- Image.New: the first option pass in `new` calls each option with `&encoder{}`, whose `marks` map is nil. In Go, `MarkSquares` with at least one square then panics. The model uses an empty map there, so `new` always returns.
- Image.Encoder.Encode: the `fmt.Errorf` wrapping of an `Init` error is not modelled. The wrapped value is discarded in the source, so only the fact that drawing goes on is kept.
- The `DrawPiece` method of `Format` is not modelled: `Encode` never calls it. Neither are the unused `orderOfRanks`/`orderOfFiles` tables or the unused `boardWidth, boardHeight` inside `Encode`.
- The chess library is not part of this model. The following are assumptions about that library:
  - a square is an index in 0..63 (a `MarkSquares` argument outside that range is not modelled);
  - `Square.File`/`Square.Rank` are `sq % 8` and `sq / 8`;
  - the rank and file names are "1".."8" and "a".."h";
  - the side names are "w"/"b";
  - `Board.SquareMap` is a map from squares to pieces in which a missing square is empty.
- `color.Color` is modelled as its four RGBA channel values; `RGBA()`'s 16-bit scaling is not.
