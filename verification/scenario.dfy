/**
 * A whole session on a 40 x 10 terminal: the serial link delivers "ping\n", the
 * user types "hi" (press and release of each key) and Enter, and a frame is drawn.
 */
module Scenario {
  import opened Utf8
  import opened Layout
  import opened Session

  const PING: seq<byte> := [0x70, 0x69, 0x6E, 0x67, 0x0A]
  const HI: seq<byte> := [0x68, 0x69]

  /** Typing "hi" and Enter: a press and a release of each key. */
  function HiEvents(): seq<Event> {
    [Key(Press, Char('h'), false)] + ([Key(Release, Char('h'), false)] +
    ([Key(Press, Char('i'), false)] + ([Key(Release, Char('i'), false)] +
    ([Key(Press, Enter, false)] + [Key(Release, Enter, false)]))))
  }

  /** A read buffer whose first five bytes are "ping\n"; the rest is whatever an earlier read left. */
  predicate PingBuffer(buffer: seq<byte>) {
    |buffer| == BUFFER_SIZE && buffer[..5] == PING
  }

  /** The serial read of "ping\n", then "hi" and Enter typed. */
  function PingSession(buffer: seq<byte>): (steps: seq<Step>)
    ensures |steps| == 7
  {
    [Serial(ReadBytes(5), buffer)] + seq(6, i requires 0 <= i < 6 => Keyboard(HiEvents()[i]))
  }

  /** The read of "ping\n" appends it as one line. */
  lemma PingArrives(s: State, buffer: seq<byte>)
    requires PingBuffer(buffer)
    ensures Decodable(ReadBytes(5), buffer)
    ensures OnRead(s, ReadBytes(5), buffer) == s.(chat := s.chat + [PING])
  {
    assert WellFormed(PING[1..][1..][1..][1..][1..]);
    assert WellFormed(PING);
  }

  /** Typing "hi" and Enter on an empty prompt submits the line "hi". */
  lemma HiIsSubmitted(s: State)
    requires s.prompt == []
    ensures RunEvents(s, HiEvents()) == s.(chat := s.chat + [HI])
  {
    var typedH := s.(prompt := [0x68]);
    var typedHi := s.(prompt := HI);
    var enter := [Key(Release, Enter, false)];
    var afterI := [Key(Press, Enter, false)] + enter;
    var afterPressI := [Key(Release, Char('i'), false)] + afterI;
    var afterH := [Key(Press, Char('i'), false)] + afterPressI;
    var afterPressH := [Key(Release, Char('h'), false)] + afterH;
    calc {
      RunEvents(s, HiEvents());
    == { Handles(s, Key(Press, Char('h'), false), afterPressH); }
      RunEvents(s, afterPressH);
    == { Handles(s, Key(Release, Char('h'), false), afterH); ReleasedAscii(s, 'h');
         assert s.prompt + ['h' as int] == [0x68]; }
      RunEvents(typedH, afterH);
    == { Handles(typedH, Key(Press, Char('i'), false), afterPressI); }
      RunEvents(typedH, afterPressI);
    == { Handles(typedH, Key(Release, Char('i'), false), afterI); ReleasedAscii(typedH, 'i');
         assert [0x68] + ['i' as int] == HI; }
      RunEvents(typedHi, afterI);
    == { Handles(typedHi, Key(Press, Enter, false), enter); }
      RunEvents(typedHi, enter);
    == { Handles(typedHi, Key(Release, Enter, false), []); assert enter == [Key(Release, Enter, false)] + []; }
      RunEvents(s.(chat := s.chat + [HI]), []);
    }
  }

  /** Handling an event followed by others handles that event first. */
  lemma Handles(s: State, e: Event, rest: seq<Event>)
    ensures RunEvents(s, [e] + rest) == RunEvents(OnEvent(s, e), rest)
  {
    assert ([e] + rest)[1..] == rest;
  }

  /** Releasing an ASCII character key without CONTROL appends that one byte. */
  lemma ReleasedAscii(s: State, ch: char)
    requires ch as int < 0x80
    ensures OnEvent(s, Key(Release, Char(ch), false)) == s.(prompt := s.prompt + [ch as int])
  {
  }

  /** Every step of the session is one the workers can take: the read is valid UTF-8. */
  lemma SessionAdmissible(buffer: seq<byte>)
    requires PingBuffer(buffer)
    ensures forall i :: 0 <= i < |PingSession(buffer)| ==> Admissible(PingSession(buffer)[i])
  {
    var steps := PingSession(buffer);
    PingArrives(Initial(), buffer);
    forall i | 0 <= i < |steps|
      ensures Admissible(steps[i])
    {
      if i > 0 {
        assert steps[i] == Keyboard(HiEvents()[i - 1]);
      }
    }
  }

  /** The session starts with the serial read. */
  lemma SessionSerial(s: State, buffer: seq<byte>)
    requires forall i :: 0 <= i < |PingSession(buffer)| ==> Admissible(PingSession(buffer)[i])
    ensures Run(s, PingSession(buffer)) == Run(OnRead(s, ReadBytes(5), buffer), PingSession(buffer)[1..])
  {
  }

  /** The keyboard part of the session is the keyboard worker handling `HiEvents()`. */
  lemma SessionKeys(s: State, buffer: seq<byte>)
    requires PingBuffer(buffer)
    ensures forall i :: 1 <= i < |PingSession(buffer)| ==> Admissible(PingSession(buffer)[i])
    ensures Run(s, PingSession(buffer)[1..]) == RunEvents(s, HiEvents())
  {
    SessionAdmissible(buffer);
    var keys := PingSession(buffer)[1..];
    RunMatchesEvents(s, keys);
    assert seq(|keys|, i requires 0 <= i < |keys| => keys[i].e) == HiEvents();
  }

  /** From any state with an empty prompt, the session appends "ping\n" and then "hi". */
  lemma PingThenHiFrom(s: State, buffer: seq<byte>)
    requires s.prompt == [] && PingBuffer(buffer)
    ensures forall i :: 0 <= i < |PingSession(buffer)| ==> Admissible(PingSession(buffer)[i])
    ensures Run(s, PingSession(buffer)) == s.(chat := s.chat + [PING, HI])
  {
    var steps := PingSession(buffer);
    var s1 := s.(chat := s.chat + [PING]);
    SessionAdmissible(buffer);
    calc {
      Run(s, steps);
    == { SessionSerial(s, buffer); PingArrives(s, buffer); }
      Run(s1, steps[1..]);
    == { SessionKeys(s1, buffer); }
      RunEvents(s1, HiEvents());
    == { HiIsSubmitted(s1); }
      s1.(chat := s1.chat + [HI]);
    == { assert s.chat + [PING] + [HI] == s.chat + [PING, HI]; }
      s.(chat := s.chat + [PING, HI]);
    }
  }

  /** Started fresh, the transcript ends as ["ping\n", "hi"], the prompt empty and quit not requested. */
  lemma PingThenHi(buffer: seq<byte>)
    requires PingBuffer(buffer)
    ensures forall i :: 0 <= i < |PingSession(buffer)| ==> Admissible(PingSession(buffer)[i])
    ensures Run(Initial(), PingSession(buffer)) == State([], [PING, HI], false)
  {
    PingThenHiFrom(Initial(), buffer);
  }

  /**
   * The next frame on a 40 x 10 terminal shows both lines, oldest first, on rows 1 and 2
   * of a window with six interior rows, and an empty prompt on row 8.
   */
  lemma PingThenHiFrame()
    ensures var f := FrameWrites([PING, HI], [], 40, 10);
            |f| == 22 && f[16] == Put(1, 1, PING) && f[17] == Put(1, 2, HI) && f[20] == Put(2, 8, [])
  {
    FrameLayout([PING, HI], [], 40, 10);
  }

  /** A run of keyboard steps alone is the keyboard worker's run of their events. */
  lemma {:induction false} RunMatchesEvents(s: State, steps: seq<Step>)
    requires forall i :: 0 <= i < |steps| ==> steps[i].Keyboard? && Admissible(steps[i])
    ensures Run(s, steps) == RunEvents(s, seq(|steps|, i requires 0 <= i < |steps| => steps[i].e))
    decreases |steps|
  {
    if steps != [] {
      var events := seq(|steps|, i requires 0 <= i < |steps| => steps[i].e);
      RunMatchesEvents(OnEvent(s, steps[0].e), steps[1..]);
      assert events[1..] == seq(|steps| - 1, i requires 0 <= i < |steps| - 1 => steps[1..][i].e);
    }
  }
}
