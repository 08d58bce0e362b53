/** The VGA text-mode writer: a 25x80 grid of characters with colour attributes, a
    column cursor on the bottom row, colour-nibble packing, non-printable
    substitution and the prompt-aware backspace. */
module VgaBuffer {
  import opened Text
  import Utf8

  const PromptLength: nat := 2
  const BufferHeight: nat := 25
  const BufferWidth: nat := 80

  /** The sixteen VGA colours. */
  datatype Color =
    | Black | Blue | Green | Cyan | Red | Magenta | Brown | LightGray
    | DarkGray | LightBlue | LightGreen | LightCyan | LightRed | Pink | Yellow | White

  /** A colour's `repr(u8)` value. */
  function ColorValue(c: Color): (v: nat)
    ensures v < 16
  {
    match c
    case Black => 0 case Blue => 1 case Green => 2 case Cyan => 3
    case Red => 4 case Magenta => 5 case Brown => 6 case LightGray => 7
    case DarkGray => 8 case LightBlue => 9 case LightGreen => 10 case LightCyan => 11
    case LightRed => 12 case Pink => 13 case Yellow => 14 case White => 15
  }

  /** The colour with a given value. */
  function ColorOf(v: nat): (c: Color)
    requires v < 16
    ensures ColorValue(c) == v
  {
    [Black, Blue, Green, Cyan, Red, Magenta, Brown, LightGray,
     DarkGray, LightBlue, LightGreen, LightCyan, LightRed, Pink, Yellow, White][v]
  }

  lemma ColorOfValue(c: Color)
    ensures ColorOf(ColorValue(c)) == c
  {
  }

  /** A full attribute byte. */
  datatype ColorCode = ColorCode(value: byte)

  /** `ColorCode::new`: `background << 4 | foreground` on `u8`. Both colours can be
      read back from the byte: the background from the high nibble, the
      foreground from the low one. */
  function ColorCodeNew(foreground: Color, background: Color): (cc: ColorCode)
    ensures cc.value / 16 == ColorValue(background)
    ensures cc.value % 16 == ColorValue(foreground)
  {
    var packed: bv8 := ((ColorValue(background) as bv8) << 4) | (ColorValue(foreground) as bv8);
    assert packed as int == ColorValue(background) * 16 + ColorValue(foreground) by {
      NibblePacking(ColorValue(background) as bv8, ColorValue(foreground) as bv8);
    }
    ColorCode(packed as int)
  }

  lemma NibblePacking(hi: bv8, lo: bv8)
    requires hi < 16 && lo < 16
    ensures ((hi << 4) | lo) as int == hi as int * 16 + lo as int
  {
  }

  function Foreground(cc: ColorCode): Color {
    ColorOf(cc.value % 16)
  }

  function Background(cc: ColorCode): Color {
    ColorOf(cc.value / 16)
  }

  /** Round trip: the colours packed into a code are the ones it yields. */
  lemma ColorCodeRoundTrip(foreground: Color, background: Color)
    ensures Foreground(ColorCodeNew(foreground, background)) == foreground
    ensures Background(ColorCodeNew(foreground, background)) == background
  {
    ColorOfValue(foreground);
    ColorOfValue(background);
  }

  /** One cell of the text buffer. */
  datatype ScreenChar = ScreenChar(ascii: byte, color: ColorCode)

  type Grid = seq<seq<ScreenChar>>

  predicate IsGrid(g: Grid) {
    |g| == BufferHeight && forall r :: 0 <= r < BufferHeight ==> |g[r]| == BufferWidth
  }

  function Blank(color: ColorCode): ScreenChar {
    ScreenChar(' ' as int, color)
  }

  function BlankRow(color: ColorCode): (row: seq<ScreenChar>)
    ensures |row| == BufferWidth && forall c :: 0 <= c < BufferWidth ==> row[c] == Blank(color)
  {
    seq(BufferWidth, _ => Blank(color))
  }

  /** The copy loop of `new_line`: every row but the first moves up one, and the
      last row keeps its contents. */
  function ShiftUp(g: Grid): (h: Grid)
    requires IsGrid(g)
    ensures IsGrid(h)
  {
    seq(BufferHeight, r requires 0 <= r < BufferHeight => if r < BufferHeight - 1 then g[r + 1] else g[r])
  }

  /** The copy loop of `move_text_down`: every row but the last moves down one, and
      the first row keeps its contents. */
  function ShiftDown(g: Grid): (h: Grid)
    requires IsGrid(g)
    ensures IsGrid(h)
  {
    seq(BufferHeight, r requires 0 <= r < BufferHeight => if r == 0 then g[0] else g[r - 1])
  }

  /** `clear_row`: the row filled with blanks in the given colour. */
  function ClearedRow(g: Grid, row: nat, color: ColorCode): (h: Grid)
    requires IsGrid(g) && row < BufferHeight
    ensures IsGrid(h)
  {
    g[row := BlankRow(color)]
  }

  /** One cell written. */
  function Put(g: Grid, row: nat, col: nat, ch: ScreenChar): (h: Grid)
    requires IsGrid(g) && row < BufferHeight && col < BufferWidth
    ensures IsGrid(h)
  {
    g[row := g[row][col := ch]]
  }

  /** Moving the text down and then starting a new line gives back every row but
      the last, which is blank. */
  lemma ShiftDownThenNewLine(g: Grid, color: ColorCode)
    requires IsGrid(g)
    ensures ClearedRow(ShiftUp(ShiftDown(g)), BufferHeight - 1, color) == ClearedRow(g, BufferHeight - 1, color)
  {
  }

  /** Starting a new line and then moving the text down gives back every row but
      the first, which becomes a copy of the second. */
  lemma NewLineThenShiftDown(g: Grid, color: ColorCode)
    requires IsGrid(g)
    ensures ShiftDown(ClearedRow(ShiftUp(g), BufferHeight - 1, color)) == g[0 := g[1]]
  {
  }

  /** The writer's state: the grid, the column of the bottom-row cursor and the
      current colour. */
  datatype WriterState = WriterState(grid: Grid, column: nat, color: ColorCode) {
    predicate Valid() {
      IsGrid(grid)
    }
  }

  /** `new_line`: shift the rows up, blank the bottom row, return to column 0. */
  function AfterNewLine(w: WriterState): (v: WriterState)
    requires w.Valid()
    ensures v.Valid() && v.color == w.color && v.column == 0
  {
    w.(grid := ClearedRow(ShiftUp(w.grid), BufferHeight - 1, w.color), column := 0)
  }

  /** `write_byte`: a newline starts a new line; any other byte first wraps when the
      column is past the end, then lands in the bottom row at the column, which
      advances. */
  function AfterWriteByte(w: WriterState, b: byte): (v: WriterState)
    requires w.Valid()
    ensures v.Valid() && v.color == w.color
    ensures b != '\n' as int ==> 1 <= v.column <= BufferWidth
  {
    if b == '\n' as int then AfterNewLine(w)
    else
      var u := if w.column >= BufferWidth then AfterNewLine(w) else w;
      u.(grid := Put(u.grid, BufferHeight - 1, u.column, ScreenChar(b, u.color)), column := u.column + 1)
  }

  /** The erase step of `remove_previous_symbol`: step back, write a space, step
      back again. */
  function AfterErase(w: WriterState): (v: WriterState)
    requires w.Valid() && w.column >= 1
    ensures v.Valid() && v.color == w.color && v.column < BufferWidth
  {
    var u := AfterWriteByte(w.(column := w.column - 1), ' ' as int);
    u.(column := u.column - 1)
  }

  /** The prompt check of `remove_previous_symbol`: the two cells before column 2
      of the bottom row read `> `. */
  predicate AtPrompt(g: Grid)
    requires IsGrid(g)
  {
    g[BufferHeight - 1][1].ascii == ' ' as int && g[BufferHeight - 1][0].ascii == '>' as int
  }

  /** `remove_previous_symbol`. */
  function AfterRemovePreviousSymbol(w: WriterState): (v: WriterState)
    requires w.Valid()
    ensures v.Valid() && v.color == w.color && v.column <= BufferWidth
  {
    if w.column > PromptLength then AfterErase(w)
    else if w.column == PromptLength then
      if !AtPrompt(w.grid) then AfterErase(w) else w
    else w.(grid := ShiftDown(w.grid), column := BufferWidth)
  }

  /** What `write_string` writes for one byte of the string: printable ASCII and
      newline as they are, anything else as the 0xfe block. */
  function Printable(b: byte): (p: byte)
    ensures p == '\n' as int || 0x20 <= p <= 0x7e || p == 0xfe
    ensures 0x20 <= b <= 0x7e || b == '\n' as int ==> p == b
    ensures !(0x20 <= b <= 0x7e || b == '\n' as int) ==> p == 0xfe
  {
    if 0x20 <= b <= 0x7e || b == '\n' as int then b else 0xfe
  }

  /** The writer after a run of bytes. */
  function AfterWriteBytes(w: WriterState, bytes: seq<byte>): (v: WriterState)
    requires w.Valid()
    ensures v.Valid() && v.color == w.color
  {
    if bytes == [] then w
    else AfterWriteByte(AfterWriteBytes(w, bytes[..|bytes| - 1]), bytes[|bytes| - 1])
  }

  /** The bytes `write_string` passes to `write_byte` for a string. */
  function Substituted(bytes: seq<byte>): (out: seq<byte>)
    ensures |out| == |bytes|
    ensures forall k :: 0 <= k < |bytes| ==> out[k] == Printable(bytes[k])
  {
    if bytes == [] then [] else Substituted(bytes[..|bytes| - 1]) + [Printable(bytes[|bytes| - 1])]
  }

  /** ASCII text encodes one byte per character, each the character's code. */
  lemma {:induction false} EncodeAscii(s: string)
    requires forall k :: 0 <= k < |s| ==> s[k] as int < 0x80
    ensures |Utf8.Encode(s)| == |s|
    ensures forall k :: 0 <= k < |s| ==> Utf8.Encode(s)[k] == s[k] as int
  {
    if s != [] {
      EncodeAscii(s[1..]);
      assert Utf8.EncodeChar(s[0]) == [s[0] as int];
    }
  }

  /** `write_string` passes printable ASCII and newlines through unchanged, one byte
      per character. */
  lemma PrintableTextUnchanged(s: string)
    requires forall k :: 0 <= k < |s| ==> 0x20 <= s[k] as int <= 0x7e || s[k] == '\n'
    ensures |Substituted(Utf8.Encode(s))| == |s|
    ensures forall k :: 0 <= k < |s| ==> Substituted(Utf8.Encode(s))[k] == s[k] as int
  {
    EncodeAscii(s);
  }

  /** Every byte of a character outside ASCII reaches the screen as the 0xfe block. */
  lemma NonAsciiSubstituted(c: char)
    requires c as int >= 0x80
    ensures Substituted(Utf8.EncodeChar(c)) == seq(|Utf8.EncodeChar(c)|, _ => 0xfe)
  {
    var bs := Utf8.EncodeChar(c);
    forall k | 0 <= k < |bs| ensures bs[k] >= 0x80 {
    }
  }

  /** A byte other than newline lands in the bottom row just left of the new
      column, in the current colour. When no wrap is due nothing else changes;
      at column 80 or beyond the text first scrolls up a line. */
  lemma WriteByteLands(w: WriterState, b: byte)
    requires w.Valid() && b != '\n' as int
    ensures var v := AfterWriteByte(w, b);
      && v.grid[BufferHeight - 1][v.column - 1] == ScreenChar(b, w.color)
      && (w.column < BufferWidth ==>
            v.column == w.column + 1 && v.grid == Put(w.grid, BufferHeight - 1, w.column, v.grid[BufferHeight - 1][w.column]))
      && (w.column >= BufferWidth ==> v.column == 1)
      && (w.column >= BufferWidth ==>
            var u := AfterNewLine(w);
            v == u.(grid := Put(u.grid, BufferHeight - 1, 0, ScreenChar(b, w.color)), column := 1))
  {
  }

  /** A backspace after echoing a character past the prompt erases exactly that
      character: the cell becomes a blank and the column goes back. */
  lemma EraseUndoesWrite(w: WriterState, b: byte)
    requires w.Valid() && b != '\n' as int
    requires PromptLength <= w.column < BufferWidth
    ensures AfterRemovePreviousSymbol(AfterWriteByte(w, b)) ==
      w.(grid := Put(w.grid, BufferHeight - 1, w.column, Blank(w.color)))
  {
    var v := AfterWriteByte(w, b);
    assert v.column == w.column + 1 > PromptLength;
    var g1 := Put(w.grid, BufferHeight - 1, w.column, ScreenChar(b, w.color));
    assert g1[BufferHeight - 1][w.column := Blank(w.color)] == w.grid[BufferHeight - 1][w.column := Blank(w.color)];
    assert Put(g1, BufferHeight - 1, w.column, Blank(w.color)) == Put(w.grid, BufferHeight - 1, w.column, Blank(w.color));
  }

  /** At column 2 behind the `> ` prompt, a backspace changes nothing. */
  lemma RemoveKeepsPrompt(w: WriterState)
    requires w.Valid() && w.column == PromptLength && AtPrompt(w.grid)
    ensures AfterRemovePreviousSymbol(w) == w
  {
  }

  /** At the start of a line, a backspace moves the text down one row and puts the
      column at the end of the line. */
  lemma RemoveAtLineStart(w: WriterState)
    requires w.Valid() && w.column <= 1
    ensures AfterRemovePreviousSymbol(w) == w.(grid := ShiftDown(w.grid), column := BufferWidth)
  {
  }

  /** The linear cursor position `update_cursor` computes: the bottom row, at the
      column. */
  function CursorPosition(column: nat): (pos: nat)
    ensures pos / BufferWidth == BufferHeight - 1 + column / BufferWidth
    ensures pos % BufferWidth == column % BufferWidth
  {
    (BufferHeight - 1) * BufferWidth + column
  }

  /** The high and low bytes written to the cursor-location registers 0x0E and 0x0F:
      `(position >> 8) as u8` and `position as u8`. */
  function CursorRegisters(column: nat): (r: (byte, byte))
  {
    var pos := CursorPosition(column);
    ((pos / 256) % 256, pos % 256)
  }

  /** For any column on a line the two register bytes rebuild the position. */
  lemma CursorRegistersRebuild(column: nat)
    requires column <= BufferWidth
    ensures CursorRegisters(column).0 * 256 + CursorRegisters(column).1 == CursorPosition(column)
  {
  }

  /** The `Writer`: the column, the colour, and the text buffer it writes. */
  class Writer {
    var column: nat
    var color: ColorCode
    const chars: array2<ScreenChar>

    ghost predicate Valid() {
      chars.Length0 == BufferHeight && chars.Length1 == BufferWidth
    }

    /** The buffer's contents, row by row. */
    function Grid(): (g: Grid)
      requires Valid()
      reads chars
      ensures IsGrid(g)
      ensures forall r, c :: 0 <= r < BufferHeight && 0 <= c < BufferWidth ==> g[r][c] == chars[r, c]
    {
      seq(BufferHeight, r requires 0 <= r < BufferHeight reads chars =>
        seq(BufferWidth, c requires 0 <= c < BufferWidth reads chars => chars[r, c]))
    }

    function State(): (w: WriterState)
      requires Valid()
      reads this, chars
      ensures w.Valid()
    {
      WriterState(Grid(), column, color)
    }

    lemma GridIs(g: Grid)
      requires Valid() && IsGrid(g)
      requires forall r, c :: 0 <= r < BufferHeight && 0 <= c < BufferWidth ==> chars[r, c] == g[r][c]
      ensures Grid() == g
    {
      var h := Grid();
      forall r | 0 <= r < BufferHeight
        ensures h[r] == g[r]
      {
        assert forall c :: 0 <= c < BufferWidth ==> h[r][c] == g[r][c];
      }
    }

    /** The `WRITER` static: the buffer as found, column 0, white on black. */
    constructor(screen: Grid)
      requires IsGrid(screen)
      ensures Valid() && fresh(chars)
      ensures State() == WriterState(screen, 0, ColorCodeNew(White, Black))
    {
      column := 0;
      color := ColorCodeNew(White, Black);
      chars := new ScreenChar[BufferHeight, BufferWidth]((r, c) requires 0 <= r < BufferHeight && 0 <= c < BufferWidth => screen[r][c]);
      new;
      GridIs(screen);
    }

    /** `clear_row`. */
    method ClearRow(row: nat)
      requires Valid() && row < BufferHeight
      modifies chars
      ensures Valid()
      ensures State() == old(State()).(grid := ClearedRow(old(Grid()), row, color))
    {
      var blank := Blank(color);
      for col := 0 to BufferWidth
        invariant forall r, c :: 0 <= r < BufferHeight && 0 <= c < BufferWidth ==>
          chars[r, c] == (if r == row && c < col then blank else old(chars[r, c]))
      {
        chars[row, col] := blank;
      }
      GridIs(ClearedRow(old(Grid()), row, color));
    }

    /** `new_line`. */
    method NewLine()
      requires Valid()
      modifies this, chars
      ensures Valid()
      ensures State() == AfterNewLine(old(State()))
    {
      for row := 1 to BufferHeight
        modifies chars
        invariant forall r, c :: 0 <= r < BufferHeight && 0 <= c < BufferWidth ==>
          chars[r, c] == (if r < row - 1 then old(chars[r + 1, c]) else old(chars[r, c]))
      {
        for col := 0 to BufferWidth
          invariant forall r, c :: 0 <= r < BufferHeight && 0 <= c < BufferWidth ==>
            chars[r, c] == (if r < row - 1 || (r == row - 1 && c < col) then old(chars[r + 1, c]) else old(chars[r, c]))
        {
          chars[row - 1, col] := chars[row, col];
        }
      }
      GridIs(ShiftUp(old(Grid())));
      ClearRow(BufferHeight - 1);
      column := 0;
    }

    /** `move_text_down`. */
    method MoveTextDown()
      requires Valid()
      modifies chars
      ensures Valid()
      ensures State() == old(State()).(grid := ShiftDown(old(Grid())))
    {
      for row := BufferHeight downto 1
        invariant forall r, c :: 0 <= r < BufferHeight && 0 <= c < BufferWidth ==>
          chars[r, c] == (if r >= row then old(chars[r - 1, c]) else old(chars[r, c]))
      {
        for col := 0 to BufferWidth
          invariant forall r, c :: 0 <= r < BufferHeight && 0 <= c < BufferWidth ==>
            chars[r, c] == (if r > row || (r == row && c < col) then old(chars[r - 1, c]) else old(chars[r, c]))
        {
          chars[row, col] := chars[row - 1, col];
        }
      }
      GridIs(ShiftDown(old(Grid())));
    }

    /** `write_byte`; the cursor registers it then updates are not part of the state. */
    method WriteByte(b: byte)
      requires Valid()
      modifies this, chars
      ensures Valid()
      ensures State() == AfterWriteByte(old(State()), b)
    {
      if b == '\n' as int {
        NewLine();
      } else {
        if column >= BufferWidth {
          NewLine();
        }
        ghost var g := Grid();
        chars[BufferHeight - 1, column] := ScreenChar(b, color);
        GridIs(Put(g, BufferHeight - 1, column, ScreenChar(b, color)));
        column := column + 1;
      }
    }

    /** `write_string`: every byte of the string's UTF-8 encoding, substituted. */
    method WriteString(s: string)
      requires Valid()
      modifies this, chars
      ensures Valid()
      ensures State() == AfterWriteBytes(old(State()), Substituted(Utf8.Encode(s)))
    {
      var bytes := Utf8.Encode(s);
      for i := 0 to |bytes|
        invariant Valid()
        invariant State() == AfterWriteBytes(old(State()), Substituted(bytes[..i]))
      {
        WriteByte(Printable(bytes[i]));
        assert bytes[..i + 1][..i] == bytes[..i];
      }
      assert bytes[..|bytes|] == bytes;
    }

    /** `set_column`. */
    method SetColumn(col: nat)
      modifies this
      ensures column == col && color == old(color)
    {
      column := col;
    }

    /** `get_column`. */
    method GetColumn() returns (col: nat)
      ensures col == column
    {
      col := column;
    }

    /** `remove_previous_symbol`. */
    method RemovePreviousSymbol()
      requires Valid()
      modifies this, chars
      ensures Valid()
      ensures State() == AfterRemovePreviousSymbol(old(State()))
    {
      if column > PromptLength {
        column := column - 1;
        WriteByte(' ' as int);
        column := column - 1;
      } else if column == PromptLength {
        var prev := chars[BufferHeight - 1, column - 1];
        var prevPrev := chars[BufferHeight - 1, column - 2];
        if !(prev.ascii == ' ' as int && prevPrev.ascii == '>' as int) {
          column := column - 1;
          WriteByte(' ' as int);
          column := column - 1;
        }
      } else if column <= 1 {
        MoveTextDown();
        column := BufferWidth;
      }
    }
  }
}
