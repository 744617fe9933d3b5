/**
 * The chat client's shared cells as one object, with the keyboard and serial
 * workers' steps as methods that update them in place. Each method is proved to
 * change the cells exactly as the step functions of `Session` say, so every
 * property proved of those functions holds of the object.
 */
module Client {
  import opened Utf8
  import opened Session

  class ChatClient {
    /** The line being typed (`prompt: Arc<Mutex<String>>`). */
    var prompt: seq<byte>
    /** The transcript (`chat: Arc<Mutex<Vec<String>>>`). */
    var chat: seq<seq<byte>>
    /** The quit flag (`quit: Arc<Mutex<bool>>`). */
    var quit: bool
    /** The keyboard worker's own copy of the terminal size, which only `Resize` changes. */
    var columns: nat
    var rows: nat

    /** The shared cells as a value. */
    function Cells(): State
      reads this
    {
      State(prompt, chat, quit)
    }

    /** Empty prompt and transcript, quit not set, on a terminal of the given size. */
    constructor (columns: nat, rows: nat)
      ensures Cells() == Initial()
      ensures this.columns == columns && this.rows == rows
    {
      prompt := [];
      chat := [];
      quit := false;
      this.columns := columns;
      this.rows := rows;
    }

    /** The `match` of the keyboard worker on one event. */
    method HandleEvent(e: Event)
      modifies this
      ensures Cells() == OnEvent(old(Cells()), e)
      ensures (columns, rows) == if e.Resize? then (e.columns, e.rows) else old((columns, rows))
    {
      match e {
        case Resize(nw, nh) =>
          columns := nw;
          rows := nh;
        case Paste(data) =>
          prompt := prompt + data;
        case Key(kind, code, control) =>
          if kind == Release {
            match code {
              case Char(ch) =>
                if IsQuitChar(ch, control) {
                  quit := true;
                }
                prompt := prompt + EncodeChar(ch);
              case Esc =>
                quit := true;
              case Enter =>
                chat := chat + [prompt];
                prompt := [];
              case OtherKey =>
            }
          }
        case OtherEvent =>
      }
    }

    /** The inner loop of the keyboard worker: handle every pending event, in order. */
    method HandleEvents(events: seq<Event>)
      modifies this
      ensures Cells() == RunEvents(old(Cells()), events)
      ensures (columns, rows) == SizeAfter(old((columns, rows)), events)
    {
      var i := 0;
      while i < |events|
        invariant i <= |events|
        invariant RunEvents(Cells(), events[i..]) == RunEvents(old(Cells()), events)
        invariant SizeAfter((columns, rows), events[i..]) == SizeAfter(old((columns, rows)), events)
      {
        assert events[i..][1..] == events[i + 1..];
        HandleEvent(events[i]);
        i := i + 1;
      }
    }

    /** One pass of the serial worker: act on the result of reading into `buffer`. */
    method HandleRead(r: ReadResult, buffer: array<byte>)
      requires Decodable(r, buffer[..])
      modifies this
      ensures Cells() == OnRead(old(Cells()), r, buffer[..])
      ensures columns == old(columns) && rows == old(rows)
    {
      match r {
        case ReadError =>
        case ReadBytes(n) =>
          if n != 0 {
            chat := chat + [buffer[..n]];
          }
      }
    }
  }
}
