/**
 * The state the three workers of the chat client share, and the two ways it
 * changes: a keyboard event and a serial read. Each worker changes the state
 * only while holding the lock of the cell it writes, and only the keyboard worker
 * writes the prompt, so each event or read is one atomic step here; a run of the
 * client is any interleaving of such steps.
 */
module Session {
  import opened Utf8

  /** The kind of a key event; only releases act. */
  datatype KeyEventKind = Press | Repeat | Release

  /** The key codes the client distinguishes; every other key is `OtherKey`. */
  datatype KeyCode = Char(ch: char) | Esc | Enter | OtherKey

  /** A terminal input event; `control` is whether CONTROL is among the modifiers. */
  datatype Event =
    | Resize(columns: nat, rows: nat)
    | Paste(data: seq<byte>)
    | Key(kind: KeyEventKind, code: KeyCode, control: bool)
    | OtherEvent   // focus changes and mouse events

  /** The shared cells: the line being typed, the transcript and the quit flag. */
  datatype State = State(prompt: seq<byte>, chat: seq<seq<byte>>, quit: bool)

  /**
   * Every text cell holds a valid Rust `String`: the prompt and every transcript line
   * are well-formed UTF-8.
   */
  predicate Valid(s: State) {
    WellFormed(s.prompt) && forall i :: 0 <= i < |s.chat| ==> WellFormed(s.chat[i])
  }

  /** A pasted text is a Rust `String`, so well-formed. */
  predicate EventValid(e: Event) {
    e.Paste? ==> WellFormed(e.data)
  }

  /** Empty prompt, empty transcript, quit not requested. */
  function Initial(): State {
    State([], [], false)
  }

  /** The transcript only grows: `before` is a prefix of `after`, so no line is changed or removed. */
  predicate Extends(before: seq<seq<byte>>, after: seq<seq<byte>>) {
    |before| <= |after| && after[..|before|] == before
  }

  /** Whether an event is a released Enter, which submits the prompt. */
  predicate Submits(e: Event) {
    e.Key? && e.kind == Release && e.code == Enter
  }

  /** Whether a key event is the Ctrl+`c` that asks to quit. */
  predicate IsQuitChar(ch: char, control: bool) {
    ch == 'c' && control
  }

  /**
   * The keyboard worker's reaction to one event. A paste appends its text; a released
   * character is appended (Ctrl+`c` also sets quit, and its `c` is appended all the
   * same); a released Esc sets quit; a released Enter moves the prompt into the
   * transcript; everything else, presses included, changes nothing.
   */
  function OnEvent(s: State, e: Event): (t: State)
    ensures s.quit ==> t.quit
    ensures Submits(e) ==> t.chat == s.chat + [s.prompt] && t.prompt == []
    ensures !Submits(e) ==> t.chat == s.chat && t.prompt == s.prompt + TypedBy(e)
  {
    match e
    case Paste(data) =>
      s.(prompt := s.prompt + data)
    case Key(kind, code, control) =>
      OnKey(s, kind, code, control)
    case _ =>
      s
  }

  /** The inner `match` on a key event's kind and code. */
  function OnKey(s: State, kind: KeyEventKind, code: KeyCode, control: bool): (t: State)
    ensures s.quit ==> t.quit
    ensures kind != Release ==> t == s
  {
    if kind != Release then s
    else
      match code
      case Char(ch) =>
        s.(prompt := s.prompt + EncodeChar(ch), quit := if IsQuitChar(ch, control) then true else s.quit)
      case Esc =>
        s.(quit := true)
      case Enter =>
        s.(chat := s.chat + [s.prompt], prompt := [])
      case OtherKey =>
        s
  }

  /** The size of the serial worker's read buffer. */
  const BUFFER_SIZE: nat := 512

  /** The outcome of one `port.read(&mut buffer)`: an I/O error, or the number of bytes read. */
  datatype ReadResult = ReadError | ReadBytes(n: nat)

  /**
   * What the serial worker needs of a read: the count fits the buffer (the read
   * contract), and the bytes read are well-formed UTF-8, for otherwise the
   * `String::from_utf8(..).unwrap()` of the worker panics.
   */
  predicate Decodable(r: ReadResult, buffer: seq<byte>) {
    |buffer| == BUFFER_SIZE &&
    (r.ReadBytes? ==> r.n <= |buffer| && WellFormed(buffer[..r.n]))
  }

  /**
   * The serial worker's reaction to one read: no bytes or an error change nothing;
   * n > 0 bytes become one new transcript line, exactly the bytes read.
   */
  function OnRead(s: State, r: ReadResult, buffer: seq<byte>): (t: State)
    requires Decodable(r, buffer)
    ensures t.prompt == s.prompt && t.quit == s.quit
    ensures Extends(s.chat, t.chat)
    ensures |t.chat| == |s.chat| + (if r.ReadBytes? && r.n > 0 then 1 else 0)
  {
    match r
    case ReadError => s
    case ReadBytes(n) =>
      if n == 0 then s
      else
        s.(chat := s.chat + [buffer[..n]])
  }

  /** One step of some worker. */
  datatype Step = Keyboard(e: Event) | Serial(r: ReadResult, buffer: seq<byte>)

  predicate Admissible(st: Step) {
    match st
    case Keyboard(e) => EventValid(e)
    case Serial(r, buffer) => Decodable(r, buffer)
  }

  function Apply(s: State, st: Step): State
    requires Admissible(st)
  {
    match st
    case Keyboard(e) => OnEvent(s, e)
    case Serial(r, buffer) => OnRead(s, r, buffer)
  }

  /** The state after an interleaving of steps of the keyboard and serial workers. */
  function Run(s: State, steps: seq<Step>): State
    requires forall i :: 0 <= i < |steps| ==> Admissible(steps[i])
    decreases |steps|
  {
    if steps == [] then s else Run(Apply(s, steps[0]), steps[1..])
  }

  /** The state after the keyboard worker handles `events` in order. */
  function RunEvents(s: State, events: seq<Event>): (r: State)
    ensures s.quit ==> r.quit
    ensures Extends(s.chat, r.chat)
    decreases |events|
  {
    if events == [] then s
    else
      var t := OnEvent(s, events[0]);
      var r := RunEvents(t, events[1..]);
      assert r.chat[..|s.chat|] == r.chat[..|t.chat|][..|s.chat|];
      r
  }

  /**
   * The keyboard worker's terminal size (its own copies of `w` and `h`) after handling
   * `events`: each `Resize` replaces it, every other event keeps it.
   */
  function SizeAfter(size: (nat, nat), events: seq<Event>): (nat, nat)
    decreases |events|
  {
    if events == [] then size
    else SizeAfter(if events[0].Resize? then (events[0].columns, events[0].rows) else size, events[1..])
  }

  /**
   * Only the last resize counts: after events whose last `Resize` is at index k the size
   * is the one it carries, whatever came before; with no `Resize` the size is unchanged.
   */
  lemma {:induction false} SizeAfterLastResize(size: (nat, nat), events: seq<Event>, k: nat)
    requires k < |events| && events[k].Resize?
    requires forall j :: k < j < |events| ==> !events[j].Resize?
    ensures SizeAfter(size, events) == (events[k].columns, events[k].rows)
    decreases |events|
  {
    var next := if events[0].Resize? then (events[0].columns, events[0].rows) else size;
    if k == 0 {
      SizeWithoutResize(next, events[1..]);
    } else {
      SizeAfterLastResize(next, events[1..], k - 1);
    }
  }

  /** Events without a `Resize` leave the size as it is. */
  lemma {:induction false} SizeWithoutResize(size: (nat, nat), events: seq<Event>)
    requires forall j :: 0 <= j < |events| ==> !events[j].Resize?
    ensures SizeAfter(size, events) == size
    decreases |events|
  {
    if events != [] {
      SizeWithoutResize(size, events[1..]);
    }
  }

  /** Whether a step appends a transcript line: a released Enter, or a read of n > 0 bytes. */
  predicate Appends(st: Step) {
    match st
    case Keyboard(e) => Submits(e)
    case Serial(r, _) => r.ReadBytes? && r.n > 0
  }

  /** How many steps append a line. */
  function AppendCount(steps: seq<Step>): nat
    decreases |steps|
  {
    if steps == [] then 0 else (if Appends(steps[0]) then 1 else 0) + AppendCount(steps[1..])
  }

  /** The bytes one event types: a paste's text or a released character's encoding. */
  function TypedBy(e: Event): seq<byte> {
    if e.Paste? then e.data
    else if e.Key? && e.kind == Release && e.code.Char? then EncodeChar(e.code.ch)
    else []
  }

  /** The bytes the user types with `events`, in order. */
  function Typed(events: seq<Event>): seq<byte>
    decreases |events|
  {
    if events == [] then [] else TypedBy(events[0]) + Typed(events[1..])
  }

  // ---------------------------------------------------------------------------
  // Properties of one step

  /** Handling an event keeps every text cell well-formed UTF-8. */
  lemma {:induction false} EventKeepsValid(s: State, e: Event)
    requires Valid(s) && EventValid(e)
    ensures Valid(OnEvent(s, e))
  {
    var t := OnEvent(s, e);
    if Submits(e) {
      assert t.chat == s.chat + [s.prompt];
    } else {
      assert WellFormed(TypedBy(e));
      ConcatWellFormed(s.prompt, TypedBy(e));
    }
  }

  /** A read keeps every text cell well-formed UTF-8: the line it appends decoded. */
  lemma ReadKeepsValid(s: State, r: ReadResult, buffer: seq<byte>)
    requires Valid(s) && Decodable(r, buffer)
    ensures Valid(OnRead(s, r, buffer))
  {
  }

  /** Enter moves the prompt into the transcript as exactly one new line and empties the prompt; quit is kept. */
  lemma EnterSubmits(s: State, control: bool)
    ensures var t := OnEvent(s, Key(Release, Enter, control));
            t.chat == s.chat + [s.prompt] && t.prompt == [] && t.quit == s.quit
  {
  }

  /**
   * A released character is appended to the prompt as its UTF-8 bytes; quit becomes
   * set exactly when it is Ctrl+`c` (or was set already); the transcript is untouched.
   */
  lemma CharAppends(s: State, ch: char, control: bool)
    ensures var t := OnEvent(s, Key(Release, Char(ch), control));
            t.prompt == s.prompt + EncodeChar(ch) && t.chat == s.chat &&
            (t.quit <==> s.quit || (ch == 'c' && control))
  {
  }

  /** Ctrl+`c` requests quit and still types a `c` (byte 0x63) into the prompt. */
  lemma CtrlCQuitsAndTypes(s: State)
    ensures var t := OnEvent(s, Key(Release, Char('c'), true));
            t.quit && t.prompt == s.prompt + [0x63] && t.chat == s.chat
  {
  }

  /** A released Esc sets quit and touches nothing else. */
  lemma EscQuits(s: State, control: bool)
    ensures OnEvent(s, Key(Release, Esc, control)) == s.(quit := true)
  {
  }

  /** A paste appends its text verbatim to the prompt and touches nothing else. */
  lemma PasteAppends(s: State, data: seq<byte>)
    ensures OnEvent(s, Paste(data)) == s.(prompt := s.prompt + data)
  {
  }

  /** Presses, repeats, other keys, resizes and other events leave the shared state as it is. */
  lemma InertEvents(s: State, e: Event)
    requires e.Resize? || e.OtherEvent? || (e.Key? && (e.kind != Release || e.code == OtherKey))
    ensures OnEvent(s, e) == s
  {
  }

  /** A read of no bytes, or a failed read, changes nothing; a read of n > 0 bytes appends exactly `buffer[..n]`. */
  lemma ReadAppendsChunk(s: State, r: ReadResult, buffer: seq<byte>)
    requires Decodable(r, buffer)
    ensures r == ReadError || r == ReadBytes(0) ==> OnRead(s, r, buffer) == s
    ensures r.ReadBytes? && r.n > 0 ==> OnRead(s, r, buffer) == s.(chat := s.chat + [buffer[..r.n]])
  {
  }

  // ---------------------------------------------------------------------------
  // Properties of runs

  /**
   * Along any interleaving of keyboard and serial steps the quit flag never goes
   * back to false, the transcript is only extended (no line changes once written),
   * and it grows by exactly the number of appending steps.
   */
  lemma {:induction false} RunInvariants(s: State, steps: seq<Step>)
    requires forall i :: 0 <= i < |steps| ==> Admissible(steps[i])
    ensures s.quit ==> Run(s, steps).quit
    ensures Extends(s.chat, Run(s, steps).chat)
    ensures |Run(s, steps).chat| == |s.chat| + AppendCount(steps)
    decreases |steps|
  {
    if steps != [] {
      var t := Apply(s, steps[0]);
      assert |t.chat| == |s.chat| + (if Appends(steps[0]) then 1 else 0);
      RunInvariants(t, steps[1..]);
      var u := Run(t, steps[1..]);
      assert u.chat[..|t.chat|] == t.chat;
      assert u.chat[..|s.chat|] == t.chat[..|s.chat|];
    }
  }

  /** Along any run, every text cell stays well-formed UTF-8. */
  lemma {:induction false} RunKeepsValid(s: State, steps: seq<Step>)
    requires Valid(s)
    requires forall i :: 0 <= i < |steps| ==> Admissible(steps[i])
    ensures Valid(Run(s, steps))
    decreases |steps|
  {
    if steps != [] {
      match steps[0] {
        case Keyboard(e) => EventKeepsValid(s, e);
        case Serial(r, buffer) => ReadKeepsValid(s, r, buffer);
      }
      RunKeepsValid(Apply(s, steps[0]), steps[1..]);
    }
  }

  /** Once quit is requested, every later state has it set. */
  lemma {:induction false} QuitIsFinal(s: State, steps: seq<Step>, k: nat)
    requires forall i :: 0 <= i < |steps| ==> Admissible(steps[i])
    requires k <= |steps| && Run(s, steps[..k]).quit
    ensures Run(s, steps).quit
  {
    RunSplit(s, steps, k);
    RunInvariants(Run(s, steps[..k]), steps[k..]);
  }

  /** Running a prefix and then the rest is running the whole. */
  lemma {:induction false} RunSplit(s: State, steps: seq<Step>, k: nat)
    requires forall i :: 0 <= i < |steps| ==> Admissible(steps[i])
    requires k <= |steps|
    ensures Run(s, steps) == Run(Run(s, steps[..k]), steps[k..])
    decreases k
  {
    if k > 0 {
      assert steps[..k][0] == steps[0] && steps[..k][1..] == steps[1..][..k - 1];
      RunSplit(Apply(s, steps[0]), steps[1..], k - 1);
      assert steps[1..][k - 1..] == steps[k..];
    } else {
      assert steps[..k] == [] && steps[k..] == steps;
    }
  }

  /** Handling a prefix of the events and then the rest is handling them all. */
  lemma {:induction false} RunEventsSplit(s: State, events: seq<Event>, k: nat)
    requires k <= |events|
    ensures RunEvents(s, events) == RunEvents(RunEvents(s, events[..k]), events[k..])
    decreases k
  {
    if k > 0 {
      assert events[..k][0] == events[0] && events[..k][1..] == events[1..][..k - 1];
      RunEventsSplit(OnEvent(s, events[0]), events[1..], k - 1);
      assert events[1..][k - 1..] == events[k..];
    } else {
      assert events[..k] == [] && events[k..] == events;
    }
  }

  /**
   * Between submissions the prompt holds exactly what was typed since: with no released
   * Enter among `events`, the prompt gains `Typed(events)` and the transcript is unchanged.
   */
  lemma {:induction false} PromptIsTyped(s: State, events: seq<Event>)
    requires forall i :: 0 <= i < |events| ==> !Submits(events[i])
    ensures RunEvents(s, events).prompt == s.prompt + Typed(events)
    ensures RunEvents(s, events).chat == s.chat
    decreases |events|
  {
    if events != [] {
      var e, rest := events[0], events[1..];
      var t := OnEvent(s, e);
      assert !Submits(e);
      PromptIsTyped(t, rest);
      calc {
        RunEvents(s, events).prompt;
      ==
        RunEvents(t, rest).prompt;
      ==
        t.prompt + Typed(rest);
      ==
        (s.prompt + TypedBy(e)) + Typed(rest);
      ==
        s.prompt + (TypedBy(e) + Typed(rest));
      ==
        s.prompt + Typed(events);
      }
    }
  }
}
