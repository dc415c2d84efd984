/**
 * The position text of game.js: the FEN writer `getFEN`, the reader `loadFEN`,
 * the square-number lookup `getPositionFromNumber` and the move notation
 * `getMoveNotation`. A FEN has three `:`-separated sections: the side to move,
 * then the white and the black pieces, each a tag letter followed by
 * `,`-separated square numbers, a king's number carrying a trailing `K`.
 */
module Fen {
  import opened Wrappers
  import opened Constants
  import opened Board
  import opened Text

  /** The number a cell carries in the 1..50 numbering, 0 on a light cell. */
  function NumberOf(sq: Square): (n: nat)
    requires InBoard(sq)
    ensures n != 0 <==> IsDark(sq)
  {
    SquareNumberAt(sq.row, sq.col)
  }

  /** Position of a cell in the row-major scan. */
  function CellIndex(sq: Square): int
  {
    sq.row * BOARD_SIZE + sq.col
  }

  // ------------------------------------------------------ number to square

  /** `getPositionFromNumber`: the first cell, in row-major order, whose number is `n`;
      `None` where the source throws. For 0 that is the light corner cell (0, 0). */
  function PositionFromNumber(n: int): (r: Option<Square>)
    ensures r.Some? ==> InBoard(r.value) && NumberOf(r.value) == n
    ensures r.Some? ==> forall s | InBoard(s) && NumberOf(s) == n :: CellIndex(r.value) <= CellIndex(s)
    ensures r.None? ==> forall s | InBoard(s) :: NumberOf(s) != n
  {
    if 1 <= n <= PLAYABLE_SQUARES then
      NumberedCellUnique(n);
      Some(NumberedCell(n))
    else if n == 0 then Some(Square(0, 0))
    else None
  }

  /** The dark cell numbered `n`: row (n - 1) / 5, and the ((n - 1) % 5)-th dark cell of it. */
  function NumberedCell(n: int): (sq: Square)
    requires 1 <= n <= PLAYABLE_SQUARES
    ensures InBoard(sq) && IsDark(sq) && NumberOf(sq) == n
  {
    var r, k := (n - 1) / 5, (n - 1) % 5;
    Square(r, if r % 2 == 0 then 2 * k + 1 else 2 * k)
  }

  /** Each of the numbers 1..50 is carried by exactly one cell. */
  lemma NumberedCellUnique(n: int)
    requires 1 <= n <= PLAYABLE_SQUARES
    ensures forall s | InBoard(s) && NumberOf(s) == n :: s == NumberedCell(n)
  {
    forall s | InBoard(s) && NumberOf(s) == n
      ensures s == NumberedCell(n)
    {
      var h := s.col / 2;
      assert n - 1 == 5 * s.row + h && 0 <= h < 5;
      assert s.row == (n - 1) / 5 && h == (n - 1) % 5;
    }
  }

  /** Every number in 1..50 names a dark cell, and nothing outside 0..50 names a cell. */
  lemma PositionFromNumberSpec(n: int)
    ensures 1 <= n <= PLAYABLE_SQUARES ==>
              PositionFromNumber(n).Some? && IsDark(PositionFromNumber(n).value)
              && forall s | InBoard(s) && NumberOf(s) == n :: s == PositionFromNumber(n).value
    ensures PositionFromNumber(n).None? <==> n < 0 || n > PLAYABLE_SQUARES
  {
    if 1 <= n <= PLAYABLE_SQUARES {
      NumberedCellUnique(n);
    }
  }

  /** `getMoveNotation`: "fromxto" for a capture, "from-to" otherwise, with square numbers. */
  function MoveNotation(m: Move): (s: string)
    requires InBoard(m.from) && InBoard(m.to)
  {
    NatToString(NumberOf(m.from)) + (if |m.captures| > 0 then "x" else "-") + NatToString(NumberOf(m.to))
  }

  /** The notation of a move between dark cells reads back as its two squares and its kind. */
  lemma MoveNotationReadsBack(m: Move)
    requires MoveInBoard(m) && IsDark(m.from) && IsDark(m.to)
    ensures var s := MoveNotation(m);
            var sep := if |m.captures| > 0 then 'x' else '-';
            var parts := Split(s, sep);
            && |parts| == 2
            && (|m.captures| > 0 ==> '-' !in s)
            && (|m.captures| == 0 ==> 'x' !in s)
            && (match ParseInt(parts[0]) case Some(a) => PositionFromNumber(a) == Some(m.from) case None => false)
            && (match ParseInt(parts[1]) case Some(b) => PositionFromNumber(b) == Some(m.to) case None => false)
  {
    var a, b := NatToString(NumberOf(m.from)), NatToString(NumberOf(m.to));
    var sep := if |m.captures| > 0 then 'x' else '-';
    var other := if |m.captures| > 0 then '-' else 'x';
    assert sep !in a && sep !in b && other !in a && other !in b;
    assert MoveNotation(m) == Join([a, b], sep);
    SplitJoin([a, b], sep);
    JoinAvoids([a, b], sep, other);
    ParseIntOfNat(NumberOf(m.from));
    ParseIntOfNat(NumberOf(m.to));
    NumberedCellUnique(NumberOf(m.from));
    NumberedCellUnique(NumberOf(m.to));
  }

  // ---------------------------------------------------------------- writer

  predicate HasColour(p: Piece, c: Player)
  {
    if c == White then IsWhitePiece(p) else IsBlackPiece(p)
  }

  /** One piece's token: its square number, then `K` for a king. */
  function Token(p: Piece, sq: Square): string
    requires InBoard(sq)
  {
    NatToString(NumberOf(sq)) + (if IsKing(p) then "K" else "")
  }

  /** The tokens of the pieces of colour `c` on the dark cells among the first `k`, in
      row-major order. */
  function TokensUpTo(g: Grid, c: Player, k: int): seq<string>
    requires 0 <= k <= TOTAL_SQUARES
  {
    if k == 0 then []
    else
      var sq := CellOf(k - 1);
      TokensUpTo(g, c, k - 1) + (if IsDark(sq) && HasColour(At(g, sq), c) then [Token(At(g, sq), sq)] else [])
  }

  /** Scanning one more cell, `sq`, adds its token when it is dark and holds a piece of colour `c`. */
  lemma TokensUpToCell(g: Grid, c: Player, sq: Square)
    requires InBoard(sq)
    ensures 0 <= sq.row * BOARD_SIZE + sq.col < TOTAL_SQUARES
    ensures TokensUpTo(g, c, sq.row * BOARD_SIZE + sq.col + 1) ==
      TokensUpTo(g, c, sq.row * BOARD_SIZE + sq.col) +
      (if IsDark(sq) && HasColour(At(g, sq), c) then [Token(At(g, sq), sq)] else [])
  {
    CellOfIndex(sq);
  }

  /** The piece section of colour `c`: `tag` followed by the comma-joined tokens. */
  function Section(g: Grid, c: Player, tag: char): string
  {
    [tag] + Join(TokensUpTo(g, c, TOTAL_SQUARES), ',')
  }

  /** `getFEN` as written: for black to move it writes `B:B` where the white section's tag `W`
      belongs, so both piece sections are tagged `B`. */
  function GetFenAsWritten(g: Grid, side: Player): string
  {
    var tag := if side == White then 'W' else 'B';
    Join([[tag], Section(g, White, tag), Section(g, Black, 'B')], ':')
  }

  /** `getFEN` as the notation intends it: the side to move, then the `W` and `B` sections. */
  function GetFen(g: Grid, side: Player): string
  {
    Join([if side == White then "W" else "B", Section(g, White, 'W'), Section(g, Black, 'B')], ':')
  }

  // ---------------------------------------------------------------- reader

  /** The piece a token places for colour `c`. */
  function TokenPiece(c: Player, king: bool): (p: Piece)
    ensures HasColour(p, c) && IsKing(p) == king
  {
    if c == White then (if king then WhiteKing else WhiteMan) else (if king then BlackKing else BlackMan)
  }

  /** One token of a section: an empty token is skipped; otherwise a trailing `K` marks a king,
      the rest is read with `parseInt` and looked up with `getPositionFromNumber`. `None` is
      where the source throws (NaN, or a number no cell carries). */
  function PlaceToken(g: Grid, tok: string, c: Player): Option<Grid>
  {
    if tok == [] then Some(g)
    else
      var king := tok[|tok| - 1] == 'K';
      var digits := if king then tok[..|tok| - 1] else tok;
      match ParseInt(digits)
      case None => None
      case Some(n) =>
        match PositionFromNumber(n)
        case None => None
        case Some(sq) => Some(With(g, sq, TokenPiece(c, king)))
  }

  /** The grid after placing tokens in order, and whether all of them were read; on a failure
      the pieces already placed stay on the grid. */
  datatype Placed = Placed(pieces: Grid, ok: bool)

  function PlaceTokens(g: Grid, toks: seq<string>, c: Player): Placed
    decreases |toks|
  {
    if toks == [] then Placed(g, true)
    else
      var before := PlaceTokens(g, toks[..|toks| - 1], c);
      if !before.ok then before
      else
        match PlaceToken(before.pieces, toks[|toks| - 1], c)
        case None => Placed(before.pieces, false)
        case Some(h) => Placed(h, true)
  }

  /** A piece section: its first character (the tag) is skipped unread; a section of one
      character or less places nothing. */
  function PlaceSection(g: Grid, section: string, c: Player): Placed
  {
    if |section| > 1 then PlaceTokens(g, Split(section[1..], ','), c) else Placed(g, true)
  }

  /** What `loadFEN` leaves: the grid, the side to move and the returned flag. */
  datatype Loaded = Loaded(pieces: Grid, side: Player, ok: bool)

  /** `loadFEN`: clear the board, set the side ("W" is white, anything else black), place the
      white then the black section. A missing section fails, leaving what was placed so far. */
  function LoadFen(fen: string): Loaded
  {
    LoadParts(Split(fen, ':'))
  }

  /** The piece sections of a split FEN, read onto the cleared board. */
  function LoadParts(parts: seq<string>): Loaded
    requires |parts| >= 1
  {
    var side := if parts[0] == "W" then White else Black;
    if |parts| < 2 then Loaded(EMPTY_GRID, side, false)
    else LoadBlack(parts, side, PlaceSection(EMPTY_GRID, parts[1], White))
  }

  /** The black section, read after the white one `w`. */
  function LoadBlack(parts: seq<string>, side: Player, w: Placed): Loaded
  {
    if !w.ok || |parts| < 3 then Loaded(w.pieces, side, false)
    else Finish(PlaceSection(w.pieces, parts[2], Black), side)
  }

  function Finish(p: Placed, side: Player): Loaded
  {
    Loaded(p.pieces, side, p.ok)
  }

  // ------------------------------------------------------------ round trip

  /** A written token is never empty and holds no separator. */
  lemma TokenShape(p: Piece, sq: Square)
    requires InBoard(sq)
    ensures Token(p, sq) != [] && ':' !in Token(p, sq) && ',' !in Token(p, sq)
  {
    var digits := NatToString(NumberOf(sq));
    assert forall i | 0 <= i < |digits| :: IsDecimalDigit(digits[i]);
  }

  /** A written token reads back as its piece on its cell. */
  lemma TokenReadsBack(g: Grid, p: Piece, sq: Square, c: Player)
    requires InBoard(sq) && IsDark(sq) && HasColour(p, c)
    ensures PlaceToken(g, Token(p, sq), c) == Some(With(g, sq, p))
  {
    var tok := Token(p, sq);
    TokenParts(p, sq);
    ParseIntOfNat(NumberOf(sq));
    NumberedCellUnique(NumberOf(sq));
    assert TokenPiece(c, IsKing(p)) == p;
  }

  /** A token ends in `K` exactly for a king, and the rest is the cell's number. */
  lemma TokenParts(p: Piece, sq: Square)
    requires InBoard(sq)
    ensures var tok := Token(p, sq);
      tok != [] && (tok[|tok| - 1] == 'K' <==> IsKing(p))
      && (if IsKing(p) then tok[..|tok| - 1] else tok) == NatToString(NumberOf(sq))
  {
    var digits := NatToString(NumberOf(sq));
    var tok := Token(p, sq);
    if IsKing(p) {
      assert tok == digits + "K";
      assert tok[..|tok| - 1] == digits;
    } else {
      assert tok == digits + "";
      assert IsDecimalDigit(digits[|digits| - 1]);
    }
  }

  lemma {:induction false} TokensShape(g: Grid, c: Player, k: int)
    requires 0 <= k <= TOTAL_SQUARES
    ensures forall t | t in TokensUpTo(g, c, k) :: t != [] && ':' !in t && ',' !in t
  {
    if k > 0 {
      TokensShape(g, c, k - 1);
      var sq := CellOf(k - 1);
      TokenShape(At(g, sq), sq);
    }
  }

  /** Placing one more token after a successful run reads it on the grid placed so far. */
  lemma PlaceTokensSnoc(h: Grid, ts: seq<string>, tok: string, c: Player)
    requires PlaceTokens(h, ts, c).ok
    ensures PlaceTokens(h, ts + [tok], c) ==
              match PlaceToken(PlaceTokens(h, ts, c).pieces, tok, c)
              case None => Placed(PlaceTokens(h, ts, c).pieces, false)
              case Some(r) => Placed(r, true)
  {
    assert (ts + [tok])[..|ts|] == ts;
  }

  /** What a cell holds once the tokens of colour `c` from the first `k` cells of `g` have
      been placed on `h`. */
  function PlacedCell(g: Grid, h: Grid, c: Player, k: int, s: Square): Piece
    requires InBoard(s)
  {
    if CellIndex(s) < k && IsDark(s) && HasColour(At(g, s), c) then At(g, s) else At(h, s)
  }

  /** The tokens of one more cell: its piece is placed when it is of colour `c` on a dark cell. */
  lemma PlaceTokensStep(g: Grid, h: Grid, c: Player, k: int)
    requires 0 < k <= TOTAL_SQUARES && PlaceTokens(h, TokensUpTo(g, c, k - 1), c).ok
    ensures var sq, before := CellOf(k - 1), PlaceTokens(h, TokensUpTo(g, c, k - 1), c).pieces;
            PlaceTokens(h, TokensUpTo(g, c, k), c)
            == Placed(if IsDark(sq) && HasColour(At(g, sq), c) then With(before, sq, At(g, sq)) else before, true)
  {
    var sq := CellOf(k - 1);
    var ts := TokensUpTo(g, c, k - 1);
    if IsDark(sq) && HasColour(At(g, sq), c) {
      var tok := Token(At(g, sq), sq);
      assert TokensUpTo(g, c, k) == ts + [tok];
      TokenReadsBack(PlaceTokens(h, ts, c).pieces, At(g, sq), sq, c);
      PlaceTokensSnoc(h, ts, tok, c);
    } else {
      assert TokensUpTo(g, c, k) == ts;
    }
  }

  /** Placing the tokens of colour `c` written from `g` onto any grid `h` reads every one and
      puts back exactly those pieces of `g`, leaving the rest of `h`. */
  lemma {:induction false} PlaceTokensUpTo(g: Grid, h: Grid, c: Player, k: int)
    requires 0 <= k <= TOTAL_SQUARES
    ensures PlaceTokens(h, TokensUpTo(g, c, k), c).ok
    ensures forall s | InBoard(s) :: At(PlaceTokens(h, TokensUpTo(g, c, k), c).pieces, s) == PlacedCell(g, h, c, k, s)
  {
    if k > 0 {
      PlaceTokensUpTo(g, h, c, k - 1);
      PlaceTokensStep(g, h, c, k);
      var sq := CellOf(k - 1);
      var before := PlaceTokens(h, TokensUpTo(g, c, k - 1), c).pieces;
      var after := PlaceTokens(h, TokensUpTo(g, c, k), c).pieces;
      PlacedCellStep(g, h, c, k, before, after);
    }
  }

  /** One more scanned cell: the grid after placing its token agrees with `PlacedCell` at `k`
      when the grid before agreed with it at `k - 1`. */
  lemma PlacedCellStep(g: Grid, h: Grid, c: Player, k: int, before: Grid, after: Grid)
    requires 0 < k <= TOTAL_SQUARES
    requires forall s | InBoard(s) :: At(before, s) == PlacedCell(g, h, c, k - 1, s)
    requires var sq := CellOf(k - 1);
             after == if IsDark(sq) && HasColour(At(g, sq), c) then With(before, sq, At(g, sq)) else before
    ensures forall s | InBoard(s) :: At(after, s) == PlacedCell(g, h, c, k, s)
  {
    var sq := CellOf(k - 1);
    forall s | InBoard(s)
      ensures At(after, s) == PlacedCell(g, h, c, k, s)
    {
      if s != sq {
        CellOfIndex(s);
        assert CellIndex(s) != k - 1;
        assert At(after, s) == At(before, s);
      }
    }
  }

  /** A written section, whatever its tag, places exactly the pieces of its colour. */
  lemma SectionReadsBack(g: Grid, h: Grid, c: Player, tag: char)
    ensures ':' !in Section(g, c, tag) || tag == ':'
    ensures var r := PlaceSection(h, Section(g, c, tag), c);
            && r.ok
            && forall s | InBoard(s) ::
                 At(r.pieces, s) == (if IsDark(s) && HasColour(At(g, s), c) then At(g, s) else At(h, s))
  {
    var ts := TokensUpTo(g, c, TOTAL_SQUARES);
    TokensShape(g, c, TOTAL_SQUARES);
    JoinAvoids(ts, ',', ':');
    PlaceTokensUpTo(g, h, c, TOTAL_SQUARES);
    var sec := Section(g, c, tag);
    assert sec[1..] == Join(ts, ',');
    JoinEmpty(ts, ',');
    if ts == [] {
      assert PlaceSection(h, sec, c) == Placed(h, true);
    } else {
      assert ts[0] in ts;
      SplitJoin(ts, ',');
    }
    forall s | InBoard(s)
      ensures CellIndex(s) < TOTAL_SQUARES
    {
      CellOfIndex(s);
    }
  }

  /** Placing the white then the black section written from `g` onto the cleared board
      rebuilds `g`, when its pieces stand on dark cells. */
  lemma SectionsRebuild(g: Grid, whiteTag: char)
    requires forall s | InBoard(s) && !IsDark(s) :: At(g, s) == NoPiece
    ensures var w := PlaceSection(EMPTY_GRID, Section(g, White, whiteTag), White);
            var b := PlaceSection(w.pieces, Section(g, Black, 'B'), Black);
            w.ok && b.ok && b.pieces == g
  {
    SectionReadsBack(g, EMPTY_GRID, White, whiteTag);
    var w := PlaceSection(EMPTY_GRID, Section(g, White, whiteTag), White);
    SectionReadsBack(g, w.pieces, Black, 'B');
    var b := PlaceSection(w.pieces, Section(g, Black, 'B'), Black);
    EmptyGridCells();
    forall s | InBoard(s)
      ensures At(b.pieces, s) == At(g, s)
    {
      OwnershipShape(At(g, s), White);
    }
    GridExtensionality(b.pieces, g);
  }

  /** Reading the three sections back, whatever the white section's tag, gives the grid, the
      side to move and success, for any grid whose pieces stand on dark cells. */
  lemma ThreeSectionsReadBack(g: Grid, side: Player, whiteTag: char)
    requires whiteTag != ':'
    requires forall s | InBoard(s) && !IsDark(s) :: At(g, s) == NoPiece
    ensures LoadFen(Join([if side == White then "W" else "B", Section(g, White, whiteTag), Section(g, Black, 'B')], ':'))
            == Loaded(g, side, true)
  {
    var parts := [if side == White then "W" else "B", Section(g, White, whiteTag), Section(g, Black, 'B')];
    SectionReadsBack(g, EMPTY_GRID, White, whiteTag);
    SectionReadsBack(g, EMPTY_GRID, Black, 'B');
    assert forall q | q in parts :: ':' !in q;
    SplitJoin(parts, ':');
    SectionsRebuild(g, whiteTag);
  }

  /** `loadFEN(getFEN())` restores the grid and the side to move, for every grid whose pieces
      stand on dark cells. */
  lemma FenRoundTrip(g: Grid, side: Player)
    requires forall s | InBoard(s) && !IsDark(s) :: At(g, s) == NoPiece
    ensures LoadFen(GetFen(g, side)) == Loaded(g, side, true)
  {
    ThreeSectionsReadBack(g, side, 'W');
  }

  /** The writer as it stands also round-trips through this reader, which skips the tags
      unread; yet with black to move both piece sections carry the tag `B`, so the white
      pieces are labelled as black ones. */
  lemma FenAsWrittenMislabels(g: Grid)
    requires forall s | InBoard(s) && !IsDark(s) :: At(g, s) == NoPiece
    ensures LoadFen(GetFenAsWritten(g, Black)) == Loaded(g, Black, true)
    ensures var parts := Split(GetFenAsWritten(g, Black), ':');
            |parts| == 3 && parts[1] != [] && parts[1][0] == 'B' && parts[2] != [] && parts[2][0] == 'B'
    ensures var parts := Split(GetFen(g, Black), ':');
            |parts| == 3 && parts[0] == "B" && parts[1] != [] && parts[1][0] == 'W' && parts[2] != [] && parts[2][0] == 'B'
  {
    ThreeSectionsReadBack(g, Black, 'B');
    SectionReadsBack(g, EMPTY_GRID, White, 'B');
    SectionReadsBack(g, EMPTY_GRID, White, 'W');
    SectionReadsBack(g, EMPTY_GRID, Black, 'B');
    SplitJoin(["B", Section(g, White, 'B'), Section(g, Black, 'B')], ':');
    SplitJoin(["B", Section(g, White, 'W'), Section(g, Black, 'B')], ':');
  }
}
