/**
 * Screen geometry of the chat client: the double-line border of a window, the
 * tail of the transcript shown inside it, and one whole frame (chat window plus
 * prompt row). Output is modelled as the list of commands queued on the terminal:
 * a `MoveTo(col, row)` followed by a `write` of some bytes becomes one `Put`.
 */
module Layout {
  import opened Utf8

  /** A drawing area: origin (x, y), width w and height h, in character cells. */
  datatype Rect = Rect(x: nat, y: nat, w: nat, h: nat)

  /** One command queued on the terminal. */
  datatype Command =
    | ClearAll                                   // Clear(ClearType::All)
    | Put(col: nat, row: nat, text: seq<byte>)   // MoveTo(col, row), then write(text)

  /** Terminal coordinates are 16-bit (`MoveTo(u16, u16)`). */
  const COORD_LIMIT: nat := 0x1_0000

  // The box-drawing glyphs, as characters and as the UTF-8 bytes written.
  const HORIZONTAL: char := '═'
  const VERTICAL: char := '║'
  const TOP_LEFT: char := '╔'
  const TOP_RIGHT: char := '╗'
  const BOTTOM_LEFT: char := '╚'
  const BOTTOM_RIGHT: char := '╝'
  const TEE_LEFT: char := '╠'
  const TEE_RIGHT: char := '╣'

  const HORIZONTAL_BYTES: seq<byte> := [0xE2, 0x95, 0x90]
  const WALL: seq<byte> := [0xE2, 0x95, 0x91]
  const TOP_LEFT_BYTES: seq<byte> := [0xE2, 0x95, 0x94]
  const TOP_RIGHT_BYTES: seq<byte> := [0xE2, 0x95, 0x97]
  const BOTTOM_LEFT_BYTES: seq<byte> := [0xE2, 0x95, 0x9A]
  const BOTTOM_RIGHT_BYTES: seq<byte> := [0xE2, 0x95, 0x9D]
  const TEE_LEFT_BYTES: seq<byte> := [0xE2, 0x95, 0xA0]
  const TEE_RIGHT_BYTES: seq<byte> := [0xE2, 0x95, 0xA3]

  function Min(a: nat, b: nat): nat { if a <= b then a else b }

  /** `ch` repeated n times. */
  function Repeat(ch: char, n: nat): (r: seq<char>)
    ensures |r| == n
    ensures forall i :: 0 <= i < n ==> r[i] == ch
  {
    if n == 0 then [] else Repeat(ch, n - 1) + [ch]
  }

  /** `text` repeated n times (`str::repeat`). */
  function RepeatBytes(text: seq<byte>, n: nat): (r: seq<byte>)
    ensures |r| == n * |text|
  {
    if n == 0 then [] else RepeatBytes(text, n - 1) + text
  }

  /**
   * A horizontal bar `format!("{}{}{}", left, "═".repeat(w - 2), right)`, as
   * characters: w glyphs, the two ends and horizontal glyphs between them.
   */
  function Bar(left: char, right: char, w: nat): (r: seq<char>)
    requires w >= 2
    ensures |r| == w
    ensures r[0] == left && r[w - 1] == right
    ensures forall i :: 0 < i < w - 1 ==> r[i] == HORIZONTAL
  {
    [left] + Repeat(HORIZONTAL, w - 2) + [right]
  }

  /** The same bar as the bytes the `format!` produces. */
  function BarBytes(left: seq<byte>, right: seq<byte>, w: nat): seq<byte>
    requires w >= 2
  {
    left + RepeatBytes(HORIZONTAL_BYTES, w - 2) + right
  }

  /** The three bars of a window of width w, as written. */
  function UpperBar(w: nat): seq<byte> requires w >= 2 { BarBytes(TOP_LEFT_BYTES, TOP_RIGHT_BYTES, w) }
  function MiddleBar(w: nat): seq<byte> requires w >= 2 { BarBytes(TEE_LEFT_BYTES, TEE_RIGHT_BYTES, w) }
  function LowerBar(w: nat): seq<byte> requires w >= 2 { BarBytes(BOTTOM_LEFT_BYTES, BOTTOM_RIGHT_BYTES, w) }

  /**
   * `bytes.get(0..w).unwrap_or(bytes)`: the first w bytes when there are that many,
   * otherwise all of them.
   */
  function Truncate(bytes: seq<byte>, w: nat): (r: seq<byte>)
    ensures |r| == Min(|bytes|, w)
    ensures r == bytes[..|r|]
    ensures |bytes| <= w ==> r == bytes
  {
    if w <= |bytes| then bytes[..w] else bytes
  }

  /**
   * Truncation counts bytes, not characters, so it can cut a character in half: one
   * wall glyph is well-formed, its first two bytes are not.
   */
  lemma TruncateCanSplitCharacter()
    ensures WellFormed(WALL) && !WellFormed(Truncate(WALL, 2))
  {
    assert WALL[3..] == [];
  }

  /**
   * `n.checked_sub(h - 2).unwrap_or(0)`: the index of the first transcript line
   * that fits in the h - 2 interior rows of a window.
   */
  function TailStart(n: nat, h: nat): (m: nat)
    requires h >= 2
    ensures m <= n
    ensures n - m == Min(n, h - 2)
  {
    if n >= h - 2 then n - (h - 2) else 0
  }

  /**
   * A window can be drawn: the bar width `w - 2` and the row `h - 1` do not
   * underflow, and every coordinate written fits in 16 bits.
   */
  predicate Drawable(b: Rect) {
    2 <= b.w < COORD_LIMIT && 2 <= b.h && b.h + 1 < COORD_LIMIT &&
    b.x + 1 < COORD_LIMIT && b.y + b.h < COORD_LIMIT
  }

  /** The side walls of `draw_window` for rows lo .. hi - 1: a wall at column 0, then one at column w. */
  function WallWrites(w: nat, lo: nat, hi: nat): seq<Command>
    decreases hi - lo
  {
    if hi <= lo then [] else WallWrites(w, lo, hi - 1) + [Put(0, hi - 1, WALL), Put(w, hi - 1, WALL)]
  }

  /** The commands `draw_window` queues: three bars, then the side walls of rows 1 .. h - 2. */
  function WindowWrites(b: Rect): (r: seq<Command>)
    requires Drawable(b)
    ensures |r| == 3 + 2 * (b.h - 2)
  {
    WallWritesLength(b.w, 1, b.h - 1);
    [Put(0, 0, UpperBar(b.w)), Put(0, b.h - 1, MiddleBar(b.w)), Put(0, b.h + 1, LowerBar(b.w))]
      + WallWrites(b.w, 1, b.h - 1)
  }

  /** The commands writing `lines`, the k-th at column x + 1 and row y + k + 1, each cut to w bytes. */
  function LineWrites(lines: seq<seq<byte>>, x: nat, y: nat, w: nat): seq<Command>
  {
    if lines == [] then []
    else
      var k := |lines| - 1;
      LineWrites(lines[..k], x, y, w) + [Put(x + 1, y + k + 1, Truncate(lines[k], w))]
  }

  /** The lines `draw_chat_in_window` shows: the transcript from its tail index on. */
  function Visible(chat: seq<seq<byte>>, h: nat): (r: seq<seq<byte>>)
    requires h >= 2
    ensures |r| == Min(|chat|, h - 2)
    ensures r == chat[|chat| - |r|..]
  {
    chat[TailStart(|chat|, h)..]
  }

  /** The commands `draw_chat_in_window` queues: the window, then the visible lines. */
  function ChatWindowWrites(chat: seq<seq<byte>>, b: Rect): (r: seq<Command>)
    requires Drawable(b)
    ensures |r| == 3 + 2 * (b.h - 2) + Min(|chat|, b.h - 2)
  {
    LineWritesAll(Visible(chat, b.h), b.x, b.y, b.w);
    WindowWrites(b) + LineWrites(Visible(chat, b.h), b.x, b.y, b.w)
  }

  /** A terminal W columns wide and H rows high on which a frame can be drawn. */
  predicate FrameFits(width: nat, height: nat) {
    2 <= width < COORD_LIMIT && 4 <= height < COORD_LIMIT
  }

  /** The window the render loop draws the transcript in: the whole width, all but the two prompt rows. */
  function ChatRect(width: nat, height: nat): (b: Rect)
    requires FrameFits(width, height)
    ensures Drawable(b)
  {
    Rect(0, 0, width, height - 2)
  }

  /**
   * One frame of the render loop: clear, chat window, then the prompt row H - 2 with
   * walls at columns 0 and W, the prompt cut to W bytes from column 2, and the right
   * wall written once more.
   */
  function FrameWrites(chat: seq<seq<byte>>, prompt: seq<byte>, width: nat, height: nat): (r: seq<Command>)
    requires FrameFits(width, height)
    ensures |r| == 8 + 2 * (height - 4) + Min(|chat|, height - 4)
    ensures r[0] == ClearAll
  {
    [ClearAll] + ChatWindowWrites(chat, ChatRect(width, height))
      + [Put(0, height - 2, WALL), Put(width, height - 2, WALL),
         Put(2, height - 2, Truncate(prompt, width)), Put(width, height - 2, WALL)]
  }

  // ---------------------------------------------------------------------------
  // Properties of the layout

  /** Entry 2k of the side walls is row lo + k at column 0, entry 2k + 1 the same row at column w. */
  lemma {:induction false} WallWritesAt(w: nat, lo: nat, hi: nat, k: nat)
    requires lo <= hi && k < hi - lo
    ensures |WallWrites(w, lo, hi)| == 2 * (hi - lo)
    ensures WallWrites(w, lo, hi)[2 * k] == Put(0, lo + k, WALL)
    ensures WallWrites(w, lo, hi)[2 * k + 1] == Put(w, lo + k, WALL)
    decreases hi - lo
  {
    if k < hi - 1 - lo {
      WallWritesAt(w, lo, hi - 1, k);
    } else {
      WallWritesLength(w, lo, hi - 1);
    }
  }

  lemma {:induction false} WallWritesLength(w: nat, lo: nat, hi: nat)
    requires lo <= hi
    ensures |WallWrites(w, lo, hi)| == 2 * (hi - lo)
    decreases hi - lo
  {
    if lo < hi {
      WallWritesLength(w, lo, hi - 1);
    }
  }

  /** Each visible line k is written, cut to w bytes, at column x + 1 and row y + k + 1, in order. */
  lemma {:induction false} LineWritesAt(lines: seq<seq<byte>>, x: nat, y: nat, w: nat, k: nat)
    requires k < |lines|
    ensures |LineWrites(lines, x, y, w)| == |lines|
    ensures LineWrites(lines, x, y, w)[k] == Put(x + 1, y + k + 1, Truncate(lines[k], w))
    decreases |lines|
  {
    var last := |lines| - 1;
    if k < last {
      LineWritesAt(lines[..last], x, y, w, k);
    } else if last > 0 {
      LineWritesAt(lines[..last], x, y, w, 0);
    }
  }

  /** `LineWrites` puts line k on row y + k + 1, for every k. */
  lemma LineWritesAll(lines: seq<seq<byte>>, x: nat, y: nat, w: nat)
    ensures |LineWrites(lines, x, y, w)| == |lines|
    ensures forall k :: 0 <= k < |lines| ==>
              LineWrites(lines, x, y, w)[k] == Put(x + 1, y + k + 1, Truncate(lines[k], w))
  {
    if lines != [] {
      LineWritesAt(lines, x, y, w, 0);
      forall k | 0 <= k < |lines|
        ensures LineWrites(lines, x, y, w)[k] == Put(x + 1, y + k + 1, Truncate(lines[k], w))
      {
        LineWritesAt(lines, x, y, w, k);
      }
    }
  }

  /** The byte constants are the UTF-8 encodings of the glyphs. */
  lemma GlyphEncodings()
    ensures EncodeChar(HORIZONTAL) == HORIZONTAL_BYTES && EncodeChar(VERTICAL) == WALL
    ensures EncodeChar(TOP_LEFT) == TOP_LEFT_BYTES && EncodeChar(TOP_RIGHT) == TOP_RIGHT_BYTES
    ensures EncodeChar(BOTTOM_LEFT) == BOTTOM_LEFT_BYTES && EncodeChar(BOTTOM_RIGHT) == BOTTOM_RIGHT_BYTES
    ensures EncodeChar(TEE_LEFT) == TEE_LEFT_BYTES && EncodeChar(TEE_RIGHT) == TEE_RIGHT_BYTES
  {
  }

  /** Encoding distributes over concatenation. */
  lemma {:induction false} EncodeStringConcat(a: seq<char>, b: seq<char>)
    ensures EncodeString(a + b) == EncodeString(a) + EncodeString(b)
    decreases |a|
  {
    if a != [] {
      assert (a + b)[0] == a[0] && (a + b)[1..] == a[1..] + b;
      EncodeStringConcat(a[1..], b);
    } else {
      assert a + b == b;
    }
  }

  /** Encoding a repeated character repeats its encoding. */
  lemma {:induction false} EncodeRepeat(ch: char, n: nat)
    ensures EncodeString(Repeat(ch, n)) == RepeatBytes(EncodeChar(ch), n)
  {
    if n > 0 {
      EncodeRepeat(ch, n - 1);
      EncodeStringConcat(Repeat(ch, n - 1), [ch]);
      EncodeSingle(ch);
    }
  }

  /**
   * A bar built from the encodings of its glyphs is the encoding of the w-glyph bar.
   */
  lemma BarEncoding(left: char, right: char, w: nat)
    requires w >= 2
    ensures BarBytes(EncodeChar(left), EncodeChar(right), w) == EncodeString(Bar(left, right, w))
  {
    GlyphEncodings();
    EncodeRepeat(HORIZONTAL, w - 2);
    EncodeStringConcat([left] + Repeat(HORIZONTAL, w - 2), [right]);
    EncodeStringConcat([left], Repeat(HORIZONTAL, w - 2));
    EncodeSingle(left);
    EncodeSingle(right);
  }

  /**
   * Each bar written is the UTF-8 encoding of a w-glyph bar: ╔═…═╗ at the top,
   * ╠═…═╣ in the middle, ╚═…═╝ at the bottom; each is 3w bytes.
   */
  lemma BarEncodings(w: nat)
    requires w >= 2
    ensures UpperBar(w) == EncodeString(Bar(TOP_LEFT, TOP_RIGHT, w))
    ensures MiddleBar(w) == EncodeString(Bar(TEE_LEFT, TEE_RIGHT, w))
    ensures LowerBar(w) == EncodeString(Bar(BOTTOM_LEFT, BOTTOM_RIGHT, w))
    ensures |UpperBar(w)| == |MiddleBar(w)| == |LowerBar(w)| == 3 * w
  {
    GlyphEncodings();
    BarEncoding(TOP_LEFT, TOP_RIGHT, w);
    BarEncoding(TEE_LEFT, TEE_RIGHT, w);
    BarEncoding(BOTTOM_LEFT, BOTTOM_RIGHT, w);
  }

  lemma EncodeSingle(ch: char)
    ensures EncodeString([ch]) == EncodeChar(ch)
  {
    assert [ch][1..] == [];
  }

  /**
   * `draw_window` queues 3 + 2(h - 2) commands: the top bar at (0, 0), the middle bar
   * at (0, h - 1), the bottom bar at (0, h + 1), and then, for every row y in 1 .. h - 2,
   * one wall at column 0 followed by one at column w.
   */
  lemma WindowLayout(b: Rect)
    requires Drawable(b)
    ensures |WindowWrites(b)| == 3 + 2 * (b.h - 2)
    ensures WindowWrites(b)[0] == Put(0, 0, UpperBar(b.w))
    ensures WindowWrites(b)[1] == Put(0, b.h - 1, MiddleBar(b.w))
    ensures WindowWrites(b)[2] == Put(0, b.h + 1, LowerBar(b.w))
    ensures forall i :: 3 <= i < |WindowWrites(b)| ==>
              WindowWrites(b)[i] == Put(if i % 2 == 1 then 0 else b.w, (i - 1) / 2, WALL)
  {
    var walls := WallWrites(b.w, 1, b.h - 1);
    WallWritesLength(b.w, 1, b.h - 1);
    assert WindowWrites(b)[3..] == walls;
    forall i | 3 <= i < |WindowWrites(b)|
      ensures WindowWrites(b)[i] == Put(if i % 2 == 1 then 0 else b.w, (i - 1) / 2, WALL)
    {
      var k := (i - 3) / 2;
      WallWritesAt(b.w, 1, b.h - 1, k);
      assert WindowWrites(b)[i] == walls[i - 3];
    }
  }

  /** Side walls by row: every row y in 1 .. h - 2 gets a wall at column 0 and one at column w, and no other row does. */
  lemma WindowWalls(b: Rect, y: nat)
    requires Drawable(b)
    ensures |WindowWrites(b)| == 3 + 2 * (b.h - 2)
    ensures 1 <= y < b.h - 1 ==>
              WindowWrites(b)[2 * y + 1] == Put(0, y, WALL) &&
              WindowWrites(b)[2 * y + 2] == Put(b.w, y, WALL)
    ensures forall i :: 3 <= i < |WindowWrites(b)| ==> WindowWrites(b)[i].Put? && 1 <= WindowWrites(b)[i].row < b.h - 1
  {
    WindowLayout(b);
  }

  /** `draw_window` ignores the origin of its rectangle: it always draws from (0, 0). */
  lemma WindowIgnoresOrigin(b: Rect, x: nat, y: nat)
    requires Drawable(b) && Drawable(Rect(x, y, b.w, b.h))
    ensures WindowWrites(Rect(x, y, b.w, b.h)) == WindowWrites(b)
  {
  }

  /** Lines written after any prefix of commands land at the positions `LineWrites` gives them. */
  lemma LinesAfter(prefix: seq<Command>, lines: seq<seq<byte>>, x: nat, y: nat, w: nat)
    ensures |prefix + LineWrites(lines, x, y, w)| == |prefix| + |lines|
    ensures forall i :: |prefix| <= i < |prefix| + |lines| ==>
              (prefix + LineWrites(lines, x, y, w))[i]
              == Put(x + 1, y + (i - |prefix|) + 1, Truncate(lines[i - |prefix|], w))
  {
    LineWritesAll(lines, x, y, w);
  }

  /**
   * `draw_chat_in_window` shows exactly the last min(n, h - 2) transcript lines, oldest
   * first: after the window's commands, the k-th of them is line n - min(n, h - 2) + k,
   * cut to w bytes, at column x + 1 and row y + k + 1, which lies in rows y + 1 .. y + h - 2.
   */
  lemma TailWindow(chat: seq<seq<byte>>, b: Rect)
    requires Drawable(b)
    ensures |Visible(chat, b.h)| == Min(|chat|, b.h - 2)
    ensures Visible(chat, b.h) == chat[|chat| - Min(|chat|, b.h - 2)..]
    ensures |ChatWindowWrites(chat, b)| == 3 + 2 * (b.h - 2) + Min(|chat|, b.h - 2)
    ensures ChatWindowWrites(chat, b)[..3 + 2 * (b.h - 2)] == WindowWrites(b)
    ensures forall i :: 3 + 2 * (b.h - 2) <= i < |ChatWindowWrites(chat, b)| ==>
              ChatWindowWrites(chat, b)[i]
              == Put(b.x + 1, b.y + (i - (3 + 2 * (b.h - 2))) + 1,
                     Truncate(chat[|chat| - Min(|chat|, b.h - 2) + (i - (3 + 2 * (b.h - 2)))], b.w))
    ensures forall i :: 3 + 2 * (b.h - 2) <= i < |ChatWindowWrites(chat, b)| ==>
              b.y + 1 <= ChatWindowWrites(chat, b)[i].row <= b.y + b.h - 2
  {
    var window := WindowWrites(b);
    var visible := Visible(chat, b.h);
    WallWritesLength(b.w, 1, b.h - 1);
    LinesAfter(window, visible, b.x, b.y, b.w);
    assert ChatWindowWrites(chat, b) == window + LineWrites(visible, b.x, b.y, b.w);
  }

  /**
   * Every row `draw_chat_in_window` writes after its three bars lies inside the window:
   * the walls on rows 1 .. h - 2 and the lines on rows y + 1 .. y + h - 2.
   */
  lemma ChatWindowRows(chat: seq<seq<byte>>, b: Rect)
    requires Drawable(b)
    ensures var cw := ChatWindowWrites(chat, b);
            |cw| >= 3 &&
            cw[0] == Put(0, 0, UpperBar(b.w)) &&
            cw[1] == Put(0, b.h - 1, MiddleBar(b.w)) &&
            cw[2] == Put(0, b.h + 1, LowerBar(b.w)) &&
            forall j :: 3 <= j < |cw| ==> cw[j].Put? && 1 <= cw[j].row <= b.y + b.h - 2
  {
    var cw := ChatWindowWrites(chat, b);
    var base := 3 + 2 * (b.h - 2);
    TailWindow(chat, b);
    WindowLayout(b);
    forall j | 3 <= j < |cw|
      ensures cw[j].Put? && 1 <= cw[j].row <= b.y + b.h - 2
    {
      if j < base {
        assert cw[j] == cw[..base][j] == WindowWrites(b)[j];
      }
    }
  }

  /**
   * One frame on a terminal W x H (H >= 4): clear, the top bar at (0, 0), the middle bar
   * at (0, H - 3), the bottom bar at (0, H - 1), the walls, then the last min(n, H - 4)
   * transcript lines from column 1 on rows 1, 2, ..., and last the prompt row H - 2: walls
   * at columns 0 and W, the prompt cut to W bytes at column 2, and the right wall again.
   */
  lemma FrameLayout(chat: seq<seq<byte>>, prompt: seq<byte>, width: nat, height: nat)
    requires FrameFits(width, height)
    ensures var f := FrameWrites(chat, prompt, width, height);
            var shown := Min(|chat|, height - 4);
            var base := 4 + 2 * (height - 4);
            |f| == base + shown + 4 &&
            f[0] == ClearAll &&
            f[1] == Put(0, 0, UpperBar(width)) &&
            f[2] == Put(0, height - 3, MiddleBar(width)) &&
            f[3] == Put(0, height - 1, LowerBar(width)) &&
            f[1..base] == WindowWrites(ChatRect(width, height)) &&
            (forall i :: base <= i < base + shown ==>
               f[i] == Put(1, i - base + 1, Truncate(chat[|chat| - shown + (i - base)], width))) &&
            f[|f| - 4] == Put(0, height - 2, WALL) &&
            f[|f| - 3] == Put(width, height - 2, WALL) &&
            f[|f| - 2] == Put(2, height - 2, Truncate(prompt, width)) &&
            f[|f| - 1] == Put(width, height - 2, WALL)
  {
    var b := ChatRect(width, height);
    var f := FrameWrites(chat, prompt, width, height);
    var cw := ChatWindowWrites(chat, b);
    TailWindow(chat, b);
    WindowLayout(b);
    assert f == [ClearAll] + cw + f[|f| - 4..];
    forall i | 1 <= i < 1 + |cw|
      ensures f[i] == cw[i - 1]
    {
    }
  }

  /**
   * The row bands of a frame do not overlap: the top bar is alone on row 0, the middle
   * bar alone on row H - 3, the bottom bar alone on row H - 1, only the four prompt-row
   * commands use row H - 2, and everything else (walls and transcript) lies on rows
   * 1 .. H - 4. Every row written is below H.
   */
  lemma FrameBands(chat: seq<seq<byte>>, prompt: seq<byte>, width: nat, height: nat)
    requires FrameFits(width, height)
    ensures var f := FrameWrites(chat, prompt, width, height);
            |f| >= 8 &&
            forall i :: 1 <= i < |f| ==>
              f[i].Put? && f[i].row < height &&
              (f[i].row == 0 <==> i == 1) &&
              (f[i].row == height - 3 <==> i == 2) &&
              (f[i].row == height - 1 <==> i == 3) &&
              (f[i].row == height - 2 <==> i >= |f| - 4) &&
              (4 <= i < |f| - 4 ==> 1 <= f[i].row <= height - 4)
  {
    var b := ChatRect(width, height);
    var f := FrameWrites(chat, prompt, width, height);
    var cw := ChatWindowWrites(chat, b);
    ChatWindowRows(chat, b);
    assert |f| == |cw| + 5;
    forall i | 1 <= i < |f|
      ensures f[i].Put? && f[i].row < height
      ensures f[i].row == 0 <==> i == 1
      ensures f[i].row == height - 3 <==> i == 2
      ensures f[i].row == height - 1 <==> i == 3
      ensures f[i].row == height - 2 <==> i >= |f| - 4
      ensures 4 <= i < |f| - 4 ==> 1 <= f[i].row <= height - 4
    {
      if i <= |cw| {
        assert f[i] == cw[i - 1];
      }
    }
  }
}
