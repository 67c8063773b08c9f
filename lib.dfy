/**
 * The decode engine of the termion front end (src/lib.rs, `run_decoder`).
 * Its model thread is the one of src/decoder.rs with two more arms:
 * `Pause` sets the shared `paused` flag and `Shutdown` ends the loop.
 *
 * Nothing in src/lib.rs sends either event. The space key toggles an atomic
 * flag (lines 92-94) that only stops the clock from sending `Tick` (line 114),
 * `q` stores a shutdown flag (lines 87-90), and `state.paused` is never read.
 * The two arms are modelled as written; the pause the program actually has
 * is a stretch of events without `Tick`, as in src/decoder.rs.
 */
module Lib {
  import opened Options
  import opened Morse
  import opened Timing
  import Ring
  import Decoder

  datatype Event = Press | Release | ClearMessage | Tick | Pause | Shutdown

  /** The model thread's locals and message, and the shared `paused` flag. */
  datatype Session = Session(engine: Engine, paused: bool)

  /** The effect of one event; `Shutdown` changes nothing and ends the loop.
      `paused` is set by `Pause` and never cleared. */
  function Step(s: Session, ev: Event): (r: Session)
    ensures r.paused <==> s.paused || ev == Pause
    ensures ev == Shutdown ==> r == s
  {
    match ev
    case Tick => s.(engine := OnTick(s.engine))
    case Press => s.(engine := s.engine.(pressed := true))
    case Release => s.(engine := s.engine.(pressed := false))
    case Pause => s.(paused := true)
    case ClearMessage => s.(engine := s.engine.(message := ""))
    case Shutdown => s
  }

  /** The effect of draining `evs` until the first `Shutdown`; `paused` is
      never cleared. */
  function Run(s: Session, evs: seq<Event>): (r: Session)
    ensures s.paused ==> r.paused
    decreases |evs|
  {
    if evs == [] || evs[0] == Shutdown then s else Run(Step(s, evs[0]), evs[1..])
  }

  /** The key states handed to `buf.sample`, one per `Tick` before `Shutdown`. */
  function Samples(s: Session, evs: seq<Event>): (r: seq<bool>)
    ensures |r| <= |evs|
    decreases |evs|
  {
    if evs == [] || evs[0] == Shutdown then []
    else (if evs[0] == Tick then [s.engine.pressed] else []) + Samples(Step(s, evs[0]), evs[1..])
  }

  /** The events the loop processes: those before the first `Shutdown`. */
  function Processed(evs: seq<Event>): (p: seq<Event>)
    ensures Shutdown !in p
    decreases |evs|
  {
    if evs == [] || evs[0] == Shutdown then [] else [evs[0]] + Processed(evs[1..])
  }

  /** The event of src/decoder.rs that acts on the engine the same way. */
  function AsDecoderEvent(ev: Event): Decoder.Event
    requires ev != Pause && ev != Shutdown
  {
    match ev
    case Press => Decoder.Press
    case Release => Decoder.Release
    case ClearMessage => Decoder.ClearMessage
    case Tick => Decoder.Tick
  }

  /** Apart from `Pause` and `Shutdown`, every event acts on the locals and the
      message exactly as in src/decoder.rs: same thresholds, same trigger. */
  lemma AgreesWithDecoder(s: Session, ev: Event)
    requires ev != Pause && ev != Shutdown
    ensures Step(s, ev).engine == Decoder.Step(s.engine, AsDecoderEvent(ev))
    ensures Step(s, ev).paused == s.paused
  {
  }

  lemma {:induction false} RunSnoc(s: Session, evs: seq<Event>, ev: Event)
    requires Shutdown !in evs
    ensures Run(s, evs + [ev]) == Step(Run(s, evs), ev)
    decreases |evs|
  {
    if evs != [] {
      assert (evs + [ev])[0] == evs[0] && (evs + [ev])[1..] == evs[1..] + [ev];
      RunSnoc(Step(s, evs[0]), evs[1..], ev);
    }
  }

  lemma {:induction false} SamplesSnoc(s: Session, evs: seq<Event>, ev: Event)
    requires Shutdown !in evs
    ensures Samples(s, evs + [ev])
         == Samples(s, evs) + (if ev == Tick then [Run(s, evs).engine.pressed] else [])
    decreases |evs|
  {
    if evs != [] {
      assert (evs + [ev])[0] == evs[0] && (evs + [ev])[1..] == evs[1..] + [ev];
      SamplesSnoc(Step(s, evs[0]), evs[1..], ev);
    }
  }

  /** What one processed event adds to the loop's prefix of `evs`. */
  lemma PrefixStep(s: Session, evs: seq<Event>, i: nat)
    requires i < |evs| && Shutdown !in evs[..i] && evs[i] != Shutdown
    ensures Shutdown !in evs[..i + 1]
    ensures Run(s, evs[..i + 1]) == Step(Run(s, evs[..i]), evs[i])
    ensures Samples(s, evs[..i + 1])
         == Samples(s, evs[..i]) + (if evs[i] == Tick then [Run(s, evs[..i]).engine.pressed] else [])
  {
    assert evs[..i + 1] == evs[..i] + [evs[i]];
    RunSnoc(s, evs[..i], evs[i]);
    SamplesSnoc(s, evs[..i], evs[i]);
  }

  /** `Shutdown` returns from the thread: later events have no effect, neither
      on the state nor on the ring. */
  lemma {:induction false} ShutdownEndsLoop(s: Session, before: seq<Event>, after: seq<Event>)
    ensures Run(s, before + [Shutdown] + after) == Run(s, before)
    ensures Samples(s, before + [Shutdown] + after) == Samples(s, before)
    decreases |before|
  {
    var all := before + [Shutdown] + after;
    if before != [] {
      assert all[0] == before[0] && all[1..] == before[1..] + [Shutdown] + after;
      ShutdownEndsLoop(Step(s, before[0]), before[1..], after);
    } else {
      assert all[0] == Shutdown;
    }
  }

  /** The loop meets its first `Shutdown` at index `i`. */
  lemma ShutdownAt(s: Session, evs: seq<Event>, i: nat)
    requires i < |evs| && evs[i] == Shutdown
    ensures Run(s, evs) == Run(s, evs[..i]) && Samples(s, evs) == Samples(s, evs[..i])
  {
    ShutdownEndsLoop(s, evs[..i], evs[i + 1..]);
    assert evs[..i] + [Shutdown] + evs[i + 1..] == evs;
  }

  /** `Pause` sets `paused` and nothing else. */
  lemma PauseOnlyPauses(s: Session)
    ensures Step(s, Pause) == Session(s.engine, true)
  {
  }

  /** `paused` ends up set exactly when it was set already or a `Pause` was
      processed: no event clears it. */
  lemma {:induction false} PausedIffPauseProcessed(s: Session, evs: seq<Event>)
    ensures Run(s, evs).paused <==> s.paused || Pause in Processed(evs)
    decreases |evs|
  {
    if evs != [] && evs[0] != Shutdown {
      PausedIffPauseProcessed(Step(s, evs[0]), evs[1..]);
      assert Processed(evs) == [evs[0]] + Processed(evs[1..]);
    }
  }

  /** `ClearMessage` empties the message; `Press` and `Release` only set the
      key state. None of them touches the counters or the pending symbols. */
  lemma NonTickEvents(s: Session)
    ensures Step(s, ClearMessage) == s.(engine := s.engine.(message := ""))
    ensures Step(s, Press) == s.(engine := s.engine.(pressed := true))
    ensures Step(s, Release) == s.(engine := s.engine.(pressed := false))
  {
  }

  /** Only `Tick` samples the ring. */
  lemma OnlyTickSamples(s: Session, ev: Event)
    ensures Samples(s, [ev]) == if ev == Tick then [s.engine.pressed] else []
  {
    assert [ev][1..] == [];
  }

  /** `pressed_ticks == 0 || unpressed_ticks == 0` after every event. */
  lemma {:induction false} RunKeepsExclusive(s: Session, evs: seq<Event>)
    requires Exclusive(s.engine)
    ensures Exclusive(Run(s, evs).engine)
    decreases |evs|
  {
    if evs != [] && evs[0] != Shutdown {
      TickMakesExclusive(s.engine);
      RunKeepsExclusive(Step(s, evs[0]), evs[1..]);
    }
  }

  /** The state shared between the model thread and the view thread. */
  class State {
    const buf: Ring.RingBuffer
    var decoded: Option<char>
    var message: string
    var paused: bool

    /** The state `run_decoder` builds for a terminal `width` columns wide. */
    constructor (width: nat)
      requires width > 0
      ensures fresh(buf) && fresh(buf.buf) && buf.Valid() && buf.Model() == Ring.Initial(width)
      ensures decoded == None && message == "" && !paused
    {
      buf := new Ring.RingBuffer(width);
      decoded := None;
      message := "";
      paused := false;
    }
  }

  /** The model thread's `for e in receiver.iter()` loop over `events`. */
  method ModelThread(state: State, events: seq<Event>)
    returns (pressed: bool, pressedTicks: nat, unpressedTicks: nat, partial: seq<Symbol>)
    requires state.buf.Valid()
    modifies state, state.buf, state.buf.buf
    ensures state.buf.Valid() && state.decoded == old(state.decoded)
    ensures var s0 := Session(Start(old(state.message)), old(state.paused));
      state.buf.Model() == Ring.SampleAll(old(state.buf.Model()), Samples(s0, events))
    ensures var s0 := Session(Start(old(state.message)), old(state.paused));
      Session(Engine(pressed, pressedTicks, unpressedTicks, partial, state.message), state.paused)
        == Run(s0, events)
  {
    ghost var s0 := Session(Start(state.message), state.paused);
    ghost var r0 := state.buf.Model();
    var buf := state.buf;
    pressed, unpressedTicks, pressedTicks, partial := false, 0, 0, [];
    ghost var s := s0;
    for i := 0 to |events|
      invariant buf.Valid() && state.decoded == old(state.decoded)
      invariant Shutdown !in events[..i] && s == Run(s0, events[..i])
      invariant buf.Model() == Ring.SampleAll(r0, Samples(s0, events[..i]))
      invariant Engine(pressed, pressedTicks, unpressedTicks, partial, state.message) == s.engine
      invariant state.paused == s.paused
    {
      match events[i] {
        case Tick =>
          buf.Sample(pressed);
          var message;
          pressedTicks, unpressedTicks, partial, message :=
            TickStep(pressed, pressedTicks, unpressedTicks, partial, state.message);
          state.message := message;
        case Press =>
          pressed := true;
        case Release =>
          pressed := false;
        case Pause =>
          state.paused := true;
        case ClearMessage =>
          state.message := "";
        case Shutdown =>
          ShutdownAt(s0, events, i);
          return;
      }
      PrefixStep(s0, events, i);
      if events[i] == Tick {
        Ring.SampleAllSnoc(r0, Samples(s0, events[..i]), s.engine.pressed);
      } else {
        assert Samples(s0, events[..i]) + [] == Samples(s0, events[..i]);
      }
      s := Step(s, events[i]);
    }
    assert events[..|events|] == events;
  }

  /** `run_decoder`: the shared state built at lines 43-48, then the model
      thread over `events`. The thread's locals die with it. */
  method RunDecoder(width: nat, events: seq<Event>) returns (state: State)
    requires width > 0
    ensures fresh(state) && state.buf.Valid() && state.decoded == None
    ensures var s0 := Session(Start(""), false);
      state.buf.Model() == Ring.SampleAll(Ring.Initial(width), Samples(s0, events))
    ensures var s0 := Session(Start(""), false);
      state.message == Run(s0, events).engine.message && state.paused == Run(s0, events).paused
  {
    state := new State(width);
    var pressed, pressedTicks, unpressedTicks, partial := ModelThread(state, events);
  }
}
