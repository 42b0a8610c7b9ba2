/**
 The text screen: `vga_putc` over a flat byte array with a two-dimensional cursor, proved to
 show the last 25 rows of an unbounded sheet written at a single position.
 */
module Screen {

  const WIDTH := 80
  const HEIGHT := 25
  const AREA := 2000
  const COLOR := 0x07
  const NEWLINE := 10
  const BACKSPACE := 8
  const SPACE := 32

  datatype Cell = Cell(ch: int, color: int)

  const BLANK := Cell(SPACE, COLOR)

  function BlankRow(): (r: seq<Cell>)
    ensures |r| == WIDTH
  {
    seq(WIDTH, i => BLANK)
  }

  // ---------------------------------------------------------------- what the code does

  /** The visible cells, row after row, and the cursor. */
  datatype Vga = Vga(cells: seq<Cell>, x: nat, y: nat)

  predicate InRange(v: Vga) {
    |v.cells| == AREA && v.x < WIDTH && v.y < HEIGHT
  }

  function Scroll(cells: seq<Cell>): seq<Cell>
    requires |cells| == AREA
  {
    cells[WIDTH..] + BlankRow()
  }

  /** `vga_putc` up to the scroll; the cursor may be one row below the screen. */
  function Place(v: Vga, c: int): (w: Vga)
    requires InRange(v)
    ensures |w.cells| == AREA && w.x < WIDTH && w.y <= HEIGHT
  {
    if c == NEWLINE then Vga(v.cells, 0, v.y + 1)
    else if c == BACKSPACE then
      var x, y := if v.x > 0 then v.x - 1 else if v.y > 0 then WIDTH - 1 else 0,
                  if v.x == 0 && v.y > 0 then v.y - 1 else v.y;
      Vga(v.cells[y * WIDTH + x := BLANK], x, y)
    else
      var cells := v.cells[v.y * WIDTH + v.x := Cell(c, COLOR)];
      if v.x + 1 >= WIDTH then Vga(cells, 0, v.y + 1) else Vga(cells, v.x + 1, v.y)
  }

  function Put(v: Vga, c: int): Vga
    requires InRange(v)
  {
    var w := Place(v, c);
    if w.y >= HEIGHT then Vga(Scroll(w.cells), w.x, HEIGHT - 1) else w
  }

  // ---------------------------------------------------------------- the unbounded sheet

  /** All rows ever shown, row after row, and one position on them. The last 25 rows are the
      ones that can still be written. */
  datatype Sheet = Sheet(cells: seq<Cell>, pos: nat)

  function Grow(t: Sheet): Sheet {
    if t.pos >= |t.cells| then t.(cells := t.cells + BlankRow()) else t
  }

  function Write(t: Sheet, c: int): Sheet
    requires AREA <= |t.cells| && t.pos < |t.cells|
  {
    if c == NEWLINE then Grow(t.(pos := (t.pos / WIDTH + 1) * WIDTH))
    else if c == BACKSPACE then
      var p := if t.pos > |t.cells| - AREA then t.pos - 1 else t.pos;
      Sheet(t.cells[p := BLANK], p)
    else Grow(Sheet(t.cells[t.pos := Cell(c, COLOR)], t.pos + 1))
  }

  ghost predicate OnSheet(t: Sheet) {
    && AREA <= |t.cells| && |t.cells| % WIDTH == 0
    && |t.cells| - AREA <= t.pos < |t.cells|
  }

  /** The screen shows the last 25 rows and the cursor is at the sheet's position. */
  ghost predicate Shows(v: Vga, t: Sheet) {
    && InRange(v) && OnSheet(t)
    && v.cells == t.cells[|t.cells| - AREA..]
    && t.pos == |t.cells| - AREA + v.y * WIDTH + v.x
  }

  lemma WriteOnSheet(t: Sheet, c: int)
    requires OnSheet(t)
    ensures OnSheet(Write(t, c))
  {}

  /** Scrolling the window is growing the sheet. */
  lemma ScrollShows(cells: seq<Cell>)
    requires AREA <= |cells|
    ensures Scroll(cells[|cells| - AREA..]) == (cells + BlankRow())[|cells + BlankRow()| - AREA..]
  {}

  lemma EditShows(cells: seq<Cell>, i: nat, b: Cell)
    requires AREA <= |cells| && i < AREA
    ensures cells[|cells| - AREA..][i := b] == cells[|cells| - AREA + i := b][|cells| - AREA..]
  {}

  lemma NextRow(base: nat, y: nat, x: nat)
    requires base % WIDTH == 0 && x < WIDTH
    ensures ((base + y * WIDTH + x) / WIDTH + 1) * WIDTH == base + (y + 1) * WIDTH
  {
    var m := base / WIDTH;
    assert base + y * WIDTH + x == (m + y) * WIDTH + x;
  }

  lemma NewlineShows(v: Vga, t: Sheet)
    requires Shows(v, t)
    ensures Shows(Put(v, NEWLINE), Write(t, NEWLINE))
  {
    NextRow(|t.cells| - AREA, v.y, v.x);
    if v.y + 1 >= HEIGHT { ScrollShows(t.cells); }
  }

  lemma BackspaceShows(v: Vga, t: Sheet)
    requires Shows(v, t)
    ensures Shows(Put(v, BACKSPACE), Write(t, BACKSPACE))
  {
    var w := Place(v, BACKSPACE);
    EditShows(t.cells, w.y * WIDTH + w.x, BLANK);
  }

  lemma PrintShows(v: Vga, t: Sheet, c: int)
    requires Shows(v, t) && c != NEWLINE && c != BACKSPACE
    ensures Shows(Put(v, c), Write(t, c))
  {
    var b := Cell(c, COLOR);
    WriteOnSheet(t, c);
    EditShows(t.cells, v.y * WIDTH + v.x, b);
    if Place(v, c).y >= HEIGHT { ScrollShows(t.cells[t.pos := b]); }
  }

  /** One character: the wrapping, scrolling cursor and the single position stay together. */
  lemma PutShows(v: Vga, t: Sheet, c: int)
    requires Shows(v, t)
    ensures Shows(Put(v, c), Write(t, c))
  {
    if c == NEWLINE {
      NewlineShows(v, t);
    } else if c == BACKSPACE {
      BackspaceShows(v, t);
    } else {
      PrintShows(v, t, c);
    }
  }

  function PutAll(v: Vga, s: seq<int>): (w: Vga)
    requires InRange(v)
    ensures InRange(w)
    decreases |s|
  {
    if s == [] then v else PutAll(Put(v, s[0]), s[1..])
  }

  ghost function WriteAll(t: Sheet, s: seq<int>): (u: Sheet)
    requires OnSheet(t)
    ensures OnSheet(u)
    decreases |s|
  {
    if s == [] then t else (WriteOnSheet(t, s[0]); WriteAll(Write(t, s[0]), s[1..]))
  }

  /** Every character stream, whatever its line ends, wraps and backspaces. */
  lemma {:induction false} StreamShows(v: Vga, t: Sheet, s: seq<int>)
    requires Shows(v, t)
    ensures Shows(PutAll(v, s), WriteAll(t, s))
    decreases |s|
  {
    if s != [] {
      PutShows(v, t, s[0]);
      StreamShows(Put(v, s[0]), Write(t, s[0]), s[1..]);
    }
  }

  /** From any screen with the cursor anywhere: the sheet starts as that screen. */
  lemma ScreenIsWindow(v: Vga, s: seq<int>)
    requires InRange(v)
    ensures OnSheet(Sheet(v.cells, v.y * WIDTH + v.x))
    ensures Shows(PutAll(v, s), WriteAll(Sheet(v.cells, v.y * WIDTH + v.x), s))
  {
    assert v.cells[0..] == v.cells;
    StreamShows(v, Sheet(v.cells, v.y * WIDTH + v.x), s);
  }

  /** What has scrolled off the top is final. */
  lemma {:induction false} ScrollbackFinal(t: Sheet, s: seq<int>)
    requires OnSheet(t)
    ensures |t.cells| <= |WriteAll(t, s).cells|
    ensures t.cells[..|t.cells| - AREA] <= WriteAll(t, s).cells
    decreases |s|
  {
    if s != [] {
      WriteOnSheet(t, s[0]);
      var u := Write(t, s[0]);
      ScrollbackFinal(u, s[1..]);
      assert t.cells[..|t.cells| - AREA] <= u.cells[..|u.cells| - AREA];
    }
  }

  ghost predicate Printable(s: seq<int>) {
    forall i :: 0 <= i < |s| ==> s[i] != NEWLINE && s[i] != BACKSPACE
  }

  /** Text without control characters appears on the sheet as it is, from the position on,
      across row ends and scrolls, and changes nothing before it. */
  lemma {:induction false} TextAppears(t: Sheet, s: seq<int>)
    requires OnSheet(t) && Printable(s)
    ensures var u := WriteAll(t, s);
            && u.pos == t.pos + |s|
            && (forall i :: 0 <= i < |s| ==> u.cells[t.pos + i] == Cell(s[i], COLOR))
            && u.cells[..t.pos] == t.cells[..t.pos]
    decreases |s|
  {
    if s != [] {
      WriteOnSheet(t, s[0]);
      var u := Write(t, s[0]);
      TextAppears(u, s[1..]);
      var w := WriteAll(t, s);
      assert w == WriteAll(u, s[1..]);
      assert u.cells[..u.pos][t.pos] == Cell(s[0], COLOR);
      assert w.cells[..u.pos] == u.cells[..u.pos];
      forall i | 0 <= i < |s| ensures w.cells[t.pos + i] == Cell(s[i], COLOR) {
        if i == 0 {
          assert w.cells[t.pos] == w.cells[..u.pos][t.pos];
        } else {
          assert s[1..][i - 1] == s[i];
          assert w.cells[u.pos + (i - 1)] == Cell(s[i], COLOR);
        }
      }
      assert w.cells[..t.pos] == w.cells[..u.pos][..t.pos];
      assert u.cells[..t.pos] == u.cells[..u.pos][..t.pos];
    }
  }
}
