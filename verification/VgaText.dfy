/**
 `vga_putc` as the program runs it: a flat array of character and colour bytes, rewritten in
 place by nested loops when the screen scrolls.
 */
module VgaText {
  import opened Screen

  const ROW_BYTES := 160
  const BYTES := 4000

  ghost function CellsOf(video: seq<int>): (cells: seq<Cell>)
    requires |video| == BYTES
    ensures |cells| == AREA
    ensures forall i {:trigger cells[i]} :: 0 <= i < AREA ==> cells[i] == Cell(video[2 * i], video[2 * i + 1])
  {
    seq(AREA, i requires 0 <= i < AREA => Cell(video[2 * i], video[2 * i + 1]))
  }

  /** Bytes one row further on, then a blank row, are the scrolled cells. */
  lemma MovedUp(was: seq<int>, now: seq<int>)
    requires |was| == BYTES && |now| == BYTES
    requires forall k :: 0 <= k < BYTES - ROW_BYTES ==> now[k] == was[k + ROW_BYTES]
    requires forall i :: AREA - WIDTH <= i < AREA ==> now[2 * i] == SPACE && now[2 * i + 1] == COLOR
    ensures CellsOf(now) == Scroll(CellsOf(was))
  {}

  class Console {
    const video: array<int>
    var x: nat
    var y: nat

    ghost predicate Valid()
      reads this
    {
      video.Length == BYTES && x < WIDTH && y < HEIGHT
    }

    ghost function View(): Vga
      requires video.Length == BYTES
      reads this, video
    {
      Vga(CellsOf(video[..]), x, y)
    }

    method SetCell(i: nat, ch: int)
      requires video.Length == BYTES && i < AREA
      modifies video
      ensures CellsOf(video[..]) == CellsOf(old(video[..]))[i := Cell(ch, COLOR)]
    {
      video[2 * i] := ch;
      video[2 * i + 1] := COLOR;
    }

    /** One row of the upward copy. */
    method CopyRow(row: nat)
      requires video.Length == BYTES && 1 <= row < HEIGHT
      modifies video
      ensures forall k :: 0 <= k < BYTES ==>
                video[k] == if (row - 1) * ROW_BYTES <= k < row * ROW_BYTES then old(video[k + ROW_BYTES]) else old(video[k])
    {
      var col := 0;
      while col < WIDTH
        invariant 0 <= col <= WIDTH
        invariant forall k :: 0 <= k < BYTES ==>
                    video[k] == if (row - 1) * ROW_BYTES <= k < (row - 1) * ROW_BYTES + 2 * col
                                then old(video[k + ROW_BYTES]) else old(video[k])
      {
        var src := (row * WIDTH + col) * 2;
        var dst := ((row - 1) * WIDTH + col) * 2;
        video[dst] := video[src];
        video[dst + 1] := video[src + 1];
        col := col + 1;
      }
    }

    method CopyUp()
      requires video.Length == BYTES
      modifies video
      ensures forall k :: 0 <= k < BYTES ==>
                video[k] == if k < BYTES - ROW_BYTES then old(video[k + ROW_BYTES]) else old(video[k])
    {
      var row := 1;
      while row < HEIGHT
        invariant 1 <= row <= HEIGHT
        invariant forall k :: 0 <= k < BYTES ==>
                    video[k] == if k < (row - 1) * ROW_BYTES then old(video[k + ROW_BYTES]) else old(video[k])
      {
        CopyRow(row);
        row := row + 1;
      }
    }

    method ClearLastRow()
      requires video.Length == BYTES
      modifies video
      ensures forall k :: 0 <= k < BYTES - ROW_BYTES ==> video[k] == old(video[k])
      ensures forall i :: AREA - WIDTH <= i < AREA ==> video[2 * i] == SPACE && video[2 * i + 1] == COLOR
    {
      var col := 0;
      while col < WIDTH
        invariant 0 <= col <= WIDTH
        invariant forall k :: 0 <= k < BYTES - ROW_BYTES ==> video[k] == old(video[k])
        invariant forall i :: AREA - WIDTH <= i < AREA - WIDTH + col ==> video[2 * i] == SPACE && video[2 * i + 1] == COLOR
      {
        var index := ((HEIGHT - 1) * WIDTH + col) * 2;
        video[index] := SPACE;
        video[index + 1] := COLOR;
        col := col + 1;
      }
    }

    /** The in-place loops drop the top row and append a blank one. */
    method ScrollUp()
      requires video.Length == BYTES
      modifies video
      ensures CellsOf(video[..]) == Scroll(CellsOf(old(video[..])))
    {
      CopyUp();
      ClearLastRow();
      MovedUp(old(video[..]), video[..]);
    }

    method VgaPutc(c: int)
      requires Valid()
      modifies this`x, this`y, video
      ensures Valid() && View() == Put(old(View()), c)
    {
      if c == NEWLINE {
        x := 0;
        y := y + 1;
      } else if c == BACKSPACE {
        if x > 0 {
          x := x - 1;
        } else if y > 0 {
          y := y - 1;
          x := WIDTH - 1;
        }
        SetCell(y * WIDTH + x, SPACE);
      } else {
        SetCell(y * WIDTH + x, c);
        x := x + 1;
        if x >= WIDTH {
          x := 0;
          y := y + 1;
        }
      }
      assert View() == Place(old(View()), c);
      if y >= HEIGHT {
        ScrollUp();
        y := HEIGHT - 1;
      }
    }
  }
}
