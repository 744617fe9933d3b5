/**
 * The drawing routines as the client runs them: each queues commands on the
 * terminal output, one `MoveTo` plus `write` at a time. The terminal output is a
 * `Sink` whose log only grows; each routine is proved to append exactly the
 * commands the layout functions describe.
 */
module Screen {
  import opened Utf8
  import opened Layout

  /** Buffered terminal output: the commands queued so far, oldest first. */
  class Sink {
    var log: seq<Command>

    constructor ()
      ensures log == []
    {
      log := [];
    }

    /** `queue(Clear(ClearType::All))`. */
    method Clear()
      modifies this
      ensures log == old(log) + [ClearAll]
    {
      log := log + [ClearAll];
    }

    /** `queue(MoveTo(col, row))` followed by `write(text)`. */
    method PutAt(col: nat, row: nat, text: seq<byte>)
      requires col < COORD_LIMIT && row < COORD_LIMIT
      modifies this
      ensures log == old(log) + [Put(col, row, text)]
    {
      log := log + [Put(col, row, text)];
    }
  }

  /** `draw_window`: the three bars, then a wall at each side of rows 1 .. h - 2. */
  method DrawWindow(out: Sink, b: Rect)
    requires Drawable(b)
    modifies out
    ensures out.log == old(out.log) + WindowWrites(b)
  {
    var upper := BarBytes(TOP_LEFT_BYTES, TOP_RIGHT_BYTES, b.w);
    var lower := BarBytes(BOTTOM_LEFT_BYTES, BOTTOM_RIGHT_BYTES, b.w);
    var middle := BarBytes(TEE_LEFT_BYTES, TEE_RIGHT_BYTES, b.w);
    out.PutAt(0, 0, upper);
    out.PutAt(0, b.h - 1, middle);
    out.PutAt(0, b.h + 1, lower);
    ghost var bars := out.log;
    for y := 1 to b.h - 1
      invariant out.log == bars + WallWrites(b.w, 1, y)
    {
      out.PutAt(0, y, WALL);
      out.PutAt(b.w, y, WALL);
    }
  }

  /** `draw_chat_in_window`: the window, then the transcript's tail, each line cut to w bytes. */
  method DrawChatInWindow(out: Sink, chat: seq<seq<byte>>, b: Rect)
    requires Drawable(b)
    modifies out
    ensures out.log == old(out.log) + ChatWindowWrites(chat, b)
  {
    var n := |chat|;
    var m := TailStart(n, b.h);
    DrawWindow(out, b);
    ghost var window := out.log;
    var visible := chat[m..];
    assert visible == Visible(chat, b.h);
    var row := 0;
    while row < |visible|
      invariant row <= |visible|
      invariant out.log == window + LineWrites(visible[..row], b.x, b.y, b.w)
    {
      out.PutAt(b.x + 1, b.y + row + 1, Truncate(visible[row], b.w));
      LineWritesSnoc(visible, b.x, b.y, b.w, row);
      row := row + 1;
    }
    assert visible[..row] == visible;
  }

  lemma LineWritesSnoc(lines: seq<seq<byte>>, x: nat, y: nat, w: nat, k: nat)
    requires k < |lines|
    ensures LineWrites(lines[..k + 1], x, y, w)
            == LineWrites(lines[..k], x, y, w) + [Put(x + 1, y + k + 1, Truncate(lines[k], w))]
  {
    assert lines[..k + 1][..k] == lines[..k];
  }

  /**
   * One frame of the render loop on a terminal `width` x `height`: clear, the chat
   * window over all but the last two rows, then the prompt row.
   */
  method RenderFrame(out: Sink, chat: seq<seq<byte>>, prompt: seq<byte>, width: nat, height: nat)
    requires FrameFits(width, height)
    modifies out
    ensures out.log == old(out.log) + FrameWrites(chat, prompt, width, height)
  {
    out.Clear();
    DrawChatInWindow(out, chat, Rect(0, 0, width, height - 2));
    out.PutAt(0, height - 2, WALL);
    out.PutAt(width, height - 2, WALL);
    out.PutAt(2, height - 2, Truncate(prompt, width));
    out.PutAt(width, height - 2, WALL);
  }
}
