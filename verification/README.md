# serialus chat core, modelled in Dafny

serialus is a terminal chat client for a serial link, in one Rust file (`src/main.rs`).
Three workers share three cells, each behind a mutex:
- the prompt: the line being typed;
- the transcript: the list of lines received or sent;
- the quit flag.

The serial worker appends every chunk it reads as one line. The keyboard worker edits the
prompt and submits it on Enter. The render worker draws a frame about 30 times a second.
A frame is a double-line bordered chat window showing the tail of the transcript, then a
prompt row.

The model has five modules.

- `Utf8` (`utf8.dfy`): a Rust `String` as bytes. `WellFormed` is the byte grammar of
  section 4 of RFC 3629. `EncodeChar` is what `String::push` appends for a `char`.
  `ConcatWellFormed` says appending keeps text well-formed.
- `Layout` (`layout.dfy`): the geometry as pure functions. Terminal output is a list of
  `Command`s. A `MoveTo(col, row)` followed by a `write(bytes)` becomes one `Put(col, row, bytes)`.
  - `WindowWrites` is `draw_window`.
  - `ChatWindowWrites` is `draw_chat_in_window`.
  - `FrameWrites` is one pass of the render loop.
  - The lemmas state where each border piece, line and prompt lands.
- `Screen` (`screen.dfy`): the drawing routines as imperative code. A `Sink` class holds
  the queued commands. `DrawWindow`, `DrawChatInWindow` and `RenderFrame` keep the source's
  loops. Each is proved to append exactly the commands of the matching `Layout` function.
- `Session` (`session.dfy`): the shared cells as a `State` value.
  - `OnEvent` is the keyboard worker's `match` on one event.
  - `OnRead` is the serial worker's `match` on one read.
  - `Run` applies any interleaving of such steps.
  - The lemmas cover single steps and whole runs. In any run, quit never resets, the
    transcript is append-only, and every text cell stays well-formed.
- `Client` (`client.dfy`): the shared cells as a `ChatClient` object whose methods update
  them in place. Each method is proved to change the cells as `OnEvent` / `OnRead` say.
- `Scenario` (`scenario.dfy`): a whole session on a 40 x 10 terminal. "ping\n" arrives,
  "hi" and Enter are typed, and the next frame is checked.

The model follows the code, including where it is easy to misread:
- On a 40 x 10 terminal the chat window is 8 rows high, so its interior has
  8 - 2 = 6 rows. `Scenario.PingThenHiFrame` states the 6-row layout.
- Ctrl+`c` sets quit and also appends `c` to the prompt, because the `push` follows the
  `if` (`Session.CtrlCQuitsAndTypes`).
- Only released keys act, Enter included.
- `Resize` updates only the keyboard worker's own copies of the width and height. The
  render worker keeps the size it read at start-up.
- `draw_window` always draws from column 0, row 0, whatever the rectangle's origin
  (`Layout.WindowIgnoresOrigin`).
- The right wall is written at column w, one column right of the top-right corner at
  column w - 1. The middle bar is on row h - 1 and the bottom bar on row h + 1.
- The prompt text starts at column 2, and the prompt row's right wall is written twice.

## Model

| member | source | states |
|---|---|---|
| Utf8.EncodeChar | src/main.rs:133 | `prompt.push(x)` appends as many bytes as the code point needs (1 below U+0080, 2 below U+0800, 3 below U+10000, else 4); for ASCII the one byte is x itself; the bytes form one well-formed character |
| Utf8.EncodeCharRoundTrip | src/main.rs:133 | the bytes appended for x carry exactly x's code point: reassembling their bit fields gives x back |
| Utf8.ConcatWellFormed | src/main.rs:122-134 | appending well-formed text to well-formed text (`push_str`, `push`) gives well-formed text |
| Utf8.EncodeString | src/main.rs:19-25 | a glyph string's bytes are well-formed, between 1 and 4 bytes per character, and equal to the characters for ASCII |
| Layout.Truncate | src/main.rs:66-69 | `bytes.get(0..w).unwrap_or(bytes)` keeps a prefix of exactly min(len, w) bytes, the whole text when it fits |
| Layout.TruncateCanSplitCharacter | src/main.rs:66-69 | cutting at a byte count can leave a broken character: a well-formed glyph cut to 2 bytes is not well-formed |
| Layout.TailStart | src/main.rs:61 | `n.checked_sub(h - 2).unwrap_or(0)` is at most n and leaves exactly min(n, h - 2) lines after it |
| Layout.Bar | src/main.rs:26-43 | a bar is w glyphs: its two ends, and horizontal glyphs in between |
| Layout.GlyphEncodings | src/main.rs:19-25 | the bytes written for each box-drawing glyph are its UTF-8 encoding |
| Layout.BarEncodings | src/main.rs:26-43 | the upper, middle and lower bars written are the UTF-8 encodings of their w-glyph bars, 3w bytes each |
| Layout.WindowWrites | src/main.rs:18-57 | `draw_window` queues 3 + 2(h - 2) commands; `Layout.WindowLayout` gives each one's position and text |
| Layout.WindowLayout | src/main.rs:44-55 | `draw_window` writes 3 + 2(h - 2) commands: the upper bar at (0,0), the middle bar at (0,h-1), the lower bar at (0,h+1), then a wall at column 0 and one at column w for each row 1..h-2, in order |
| Layout.WindowWalls | src/main.rs:50-55 | every row y in 1..h-2 gets both walls, and the walls touch no other row |
| Layout.WindowIgnoresOrigin | src/main.rs:44-55 | the window's commands do not depend on the rectangle's x and y |
| Layout.Visible | src/main.rs:60-62 | the lines `chat.iter().skip(m)` yields are exactly the last min(n, h - 2) lines of the transcript |
| Layout.ChatWindowWrites | src/main.rs:58-71 | `draw_chat_in_window` queues the window's commands plus one per visible line, 3 + 2(h - 2) + min(n, h - 2) in all; `Layout.TailWindow` places each line |
| Layout.TailWindow | src/main.rs:58-71 | after the window's commands, the k-th command is transcript line n - min(n, h-2) + k, cut to w bytes, at (x+1, y+k+1), on a row within y+1..y+h-2 |
| Layout.ChatWindowRows | src/main.rs:58-71 | everything after the three bars lies on rows 1..y+h-2 |
| Layout.ChatRect | src/main.rs:158-167 | the chat window of a frame that fits can be drawn |
| Layout.FrameWrites | src/main.rs:155-182 | one frame queues 8 + 2(H - 4) + min(n, H - 4) commands and starts with the clear; `Layout.FrameLayout` and `Layout.FrameBands` give the rest |
| Layout.FrameLayout | src/main.rs:155-182 | a frame is: a clear, the chat window's commands (`draw_window` of the H - 2 high window, exactly), the last min(n, H-4) lines on rows 1, 2, ..., then the prompt row H-2 (walls at columns 0 and W, the prompt cut to W bytes at column 2, and the right wall again) |
| Layout.FrameBands | src/main.rs:155-182 | the row bands of a frame are disjoint: row 0 only the upper bar, row H-3 only the middle bar, row H-1 only the lower bar, row H-2 only the four prompt-row commands, everything else on rows 1..H-4 |
| Screen.Sink.PutAt | src/main.rs:44-45 | a move and a write append exactly one `Put` to the output |
| Screen.DrawWindow | src/main.rs:18-57 | the method appends exactly `WindowWrites(b)`; its wall loop keeps the log equal to the bars plus the walls of the rows done so far |
| Screen.DrawChatInWindow | src/main.rs:58-71 | the method appends exactly `ChatWindowWrites(chat, b)`: the window, then the visible lines in order |
| Screen.RenderFrame | src/main.rs:155-182 | one pass of the render loop appends exactly `FrameWrites(chat, prompt, W, H)` |
| Session.OnEvent | src/main.rs:117-146 | an event never clears quit; a released Enter moves the prompt into the transcript and empties it; every other event leaves the transcript alone and extends the prompt by what it types |
| Session.OnKey | src/main.rs:127-145 | a key event that is not a release changes nothing, and no key event clears quit |
| Session.RunEvents | src/main.rs:116-147 | draining the pending events never clears quit and only extends the transcript |
| Session.SizeAfterLastResize | src/main.rs:118-121 | after a drain, the keyboard worker's size is the one carried by the last `Resize`, whatever came before |
| Session.SizeWithoutResize | src/main.rs:118-121 | events without a `Resize` leave the keyboard worker's size as it is |
| Session.OnRead | src/main.rs:98-110 | a read leaves the prompt and quit alone, only extends the transcript, and adds one line exactly when it read n > 0 bytes |
| Session.EventKeepsValid | src/main.rs:122-142 | handling an event keeps the prompt and every transcript line well-formed UTF-8 |
| Session.ReadKeepsValid | src/main.rs:100-104 | a read whose bytes decode keeps every text cell well-formed |
| Session.EnterSubmits | src/main.rs:138-142 | Enter appends the prompt as exactly one new line, empties the prompt and keeps quit |
| Session.CharAppends | src/main.rs:128-134 | a released character appends its UTF-8 bytes; quit is set exactly for Ctrl+`c` or when already set; the transcript is unchanged |
| Session.CtrlCQuitsAndTypes | src/main.rs:128-134 | Ctrl+`c` sets quit and still appends byte 0x63 to the prompt |
| Session.EscQuits | src/main.rs:135-137 | a released Esc sets quit and changes nothing else |
| Session.PasteAppends | src/main.rs:122-125 | a paste appends its text verbatim to the prompt and changes nothing else |
| Session.InertEvents | src/main.rs:117-146 | resizes, other events, presses and repeats, and other keys leave the shared cells unchanged |
| Session.ReadAppendsChunk | src/main.rs:98-104 | `Ok(0)` and an error change nothing; `Ok(n)` appends exactly `buffer[..n]` as one line |
| Session.RunInvariants | src/main.rs:94-147 | across any interleaving of reads and events, quit never resets, earlier lines never change, and the transcript grows by exactly the number of appending steps |
| Session.RunKeepsValid | src/main.rs:94-147 | across any interleaving, every text cell stays well-formed UTF-8 |
| Session.QuitIsFinal | src/main.rs:128-137 | once some prefix of a run has set quit, the state at the end of the run has it set |
| Session.PromptIsTyped | src/main.rs:122-134 | without a released Enter, the prompt gains exactly the bytes typed or pasted, in order, and the transcript is unchanged |
| Client.ChatClient.constructor | src/main.rs:76-92 | the cells start with an empty prompt, an empty transcript and quit unset, at the terminal's size |
| Client.ChatClient.HandleEvent | src/main.rs:117-146 | the object's cells change exactly as `OnEvent` says; only `Resize` changes the keyboard worker's width and height |
| Client.ChatClient.HandleEvents | src/main.rs:116-147 | draining the pending events in order leaves the cells as `RunEvents` says and the size as `SizeAfter` says |
| Client.ChatClient.HandleRead | src/main.rs:98-110 | one read changes the cells exactly as `OnRead` says, from the read buffer's contents |
| Scenario.PingArrives | src/main.rs:100-104 | reading "ping\n" appends it as one line |
| Scenario.HiIsSubmitted | src/main.rs:128-142 | pressing and releasing h, i and Enter on an empty prompt appends "hi" and leaves the prompt empty |
| Scenario.PingThenHi | src/main.rs:94-147 | from the start, the read and the keystrokes leave the transcript ["ping\n", "hi"], the prompt empty and quit unset |
| Scenario.PingThenHiFrame | src/main.rs:155-182 | the next 40 x 10 frame has 22 commands, with "ping\n" at (1,1), "hi" at (1,2) and the empty prompt at (2,8) |
| Scenario.RunMatchesEvents | src/main.rs:114-147 | a run of keyboard steps alone is the keyboard worker handling their events in order |

## Left out

- Threads, mutexes and the three loops' `while !quit` tests are not modelled. Each
  worker changes its cell under that cell's lock, so every event or read is one atomic
  step, and `Session.Run` covers every interleaving. The keyboard worker's drain loop
  (`Client.ChatClient.HandleEvents`) does not stop when quit becomes set, and neither
  does the source's inner loop.
- Serial port I/O is left out: opening `COM13` at 115200 baud and the blocking `read`.
  Each read is a parameter (`ReadResult` and the buffer contents). The `eprintln!` on a
  read error is left out.
- `String::from_utf8(..).unwrap()` is not modelled as a decoder. `Session.OnRead` and
  `Client.ChatClient.HandleRead` require the bytes read to be well-formed, because on
  ill-formed bytes the source panics.
- Terminal I/O is not modelled: raw mode, `terminal::size`, `poll` / `read` of events,
  `flush`, and the 33 ms sleep. Events arrive as parameters. Cursor movement and what the
  terminal displays are not modelled, only the commands queued.
- Resize reaching the render worker is not modelled, because the source never does
  this: the render worker captured its own copy of the size at start-up.
- `terminal::disable_raw_mode` after each drain of the event queue is left out, because
  it only affects the terminal.
- Short writes are not modelled: `write` is taken to write all its bytes, and the
  returned count is ignored as in the source.
- Screen.DrawWindow: requires h >= 2. With h = 1 the source writes only the three bars,
  but the source never draws a window that way.
- Screen.DrawWindow, Screen.DrawChatInWindow, Layout.WindowLayout and Layout.TailWindow
  require every coordinate to be below 0x10000. For larger ones the source's `as u16`
  casts would wrap or overflow, and the model does not give their wrapped positions.
- Screen.RenderFrame and Layout.FrameLayout require a terminal of at least 2 x 4 cells.
  On a smaller one the source's `w - 2` or `h - 2` underflows and panics.
- Key modifiers other than CONTROL, and every other key code, are not modelled.
  The source ignores them, and they become `OtherKey`.
