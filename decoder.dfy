/**
 * The decode engine of the crossterm front end (src/decoder.rs). One model
 * thread drains the event channel in order: `Tick` samples the ring and runs
 * the classifier, `Press` and `Release` set the key state, and `ClearMessage`
 * empties the shared message. Pausing there only stops the clock from sending
 * `Tick`, so a paused stretch is simply a stretch of events without `Tick`.
 */
module Decoder {
  import opened Options
  import opened Morse
  import opened Timing
  import Ring

  datatype Event = Press | Release | ClearMessage | Tick

  /** The effect of one event on the model thread's locals and the message.
      Only `Tick` moves the timing state. */
  function Step(e: Engine, ev: Event): (r: Engine)
    ensures ev != Tick ==>
      r.pressedTicks == e.pressedTicks && r.unpressedTicks == e.unpressedTicks && r.partial == e.partial
  {
    match ev
    case Tick => OnTick(e)
    case Press => e.(pressed := true)
    case Release => e.(pressed := false)
    case ClearMessage => e.(message := "")
  }

  /** The effect of draining `evs` in order; each event adds at most one
      pending symbol. */
  function Run(e: Engine, evs: seq<Event>): (r: Engine)
    ensures |r.partial| <= |e.partial| + |evs|
    decreases |evs|
  {
    if evs == [] then e else Run(Step(e, evs[0]), evs[1..])
  }

  /** The key states handed to `buf.sample` while draining `evs`: one per `Tick`. */
  function Samples(e: Engine, evs: seq<Event>): (s: seq<bool>)
    ensures |s| <= |evs|
    decreases |evs|
  {
    if evs == [] then []
    else (if evs[0] == Tick then [e.pressed] else []) + Samples(Step(e, evs[0]), evs[1..])
  }

  function CountTicks(evs: seq<Event>): nat {
    if evs == [] then 0 else (if evs[0] == Tick then 1 else 0) + CountTicks(evs[1..])
  }

  lemma {:induction false} RunSnoc(e: Engine, evs: seq<Event>, ev: Event)
    ensures Run(e, evs + [ev]) == Step(Run(e, evs), ev)
    decreases |evs|
  {
    if evs != [] {
      assert (evs + [ev])[1..] == evs[1..] + [ev];
      RunSnoc(Step(e, evs[0]), evs[1..], ev);
    }
  }

  lemma {:induction false} SamplesSnoc(e: Engine, evs: seq<Event>, ev: Event)
    ensures Samples(e, evs + [ev]) == Samples(e, evs) + (if ev == Tick then [Run(e, evs).pressed] else [])
    decreases |evs|
  {
    if evs != [] {
      assert (evs + [ev])[1..] == evs[1..] + [ev];
      SamplesSnoc(Step(e, evs[0]), evs[1..], ev);
    }
  }

  /** `buf.sample` is called exactly once per `Tick` and for no other event. */
  lemma {:induction false} OneSamplePerTick(e: Engine, evs: seq<Event>)
    ensures |Samples(e, evs)| == CountTicks(evs)
    decreases |evs|
  {
    if evs != [] {
      OneSamplePerTick(Step(e, evs[0]), evs[1..]);
    }
  }

  /** Whatever the events, the display window afterwards shows the key states
      of the last `len - 1` ticks. */
  lemma WindowShowsRecentTicks(r: Ring.RingState, e: Engine, evs: seq<Event>)
    requires Ring.Invariant(r)
    ensures Ring.Visible(Ring.SampleAll(r, Samples(e, evs)))
         == (Ring.Visible(r) + Samples(e, evs))[|Samples(e, evs)|..]
  {
    Ring.SlidingWindow(r, Samples(e, evs));
  }

  /** `pressed_ticks == 0 || unpressed_ticks == 0` after every event. */
  lemma {:induction false} RunKeepsExclusive(e: Engine, evs: seq<Event>)
    requires Exclusive(e)
    ensures Exclusive(Run(e, evs))
    decreases |evs|
  {
    if evs != [] {
      TickMakesExclusive(e);
      RunKeepsExclusive(Step(e, evs[0]), evs[1..]);
    }
  }

  /** Pending symbols never outlive the letter gap, whatever the events. */
  lemma {:induction false} RunKeepsPendingInGap(e: Engine, evs: seq<Event>)
    requires PendingInGap(e)
    ensures PendingInGap(Run(e, evs))
    decreases |evs|
  {
    if evs != [] {
      if evs[0] == Tick {
        TickKeepsPendingInGap(e);
      }
      RunKeepsPendingInGap(Step(e, evs[0]), evs[1..]);
    }
  }

  /** Within a session, a silence count past the letter gap means nothing is
      pending: whatever the count does afterwards, no symbol is left behind. */
  lemma LongSilenceHasNothingPending(message: string, evs: seq<Event>)
    ensures Run(Start(message), evs).unpressedTicks > LETTER_GAP_TICKS ==> Run(Start(message), evs).partial == []
  {
    RunKeepsPendingInGap(Start(message), evs);
  }

  /** `Press` and `Release` set the key state and nothing else; they are
      idempotent. `ClearMessage` only empties the message. */
  lemma NonTickEvents(e: Engine)
    ensures Step(e, Press) == e.(pressed := true) && Step(Step(e, Press), Press) == Step(e, Press)
    ensures Step(e, Release) == e.(pressed := false) && Step(Step(e, Release), Release) == Step(e, Release)
    ensures Step(e, ClearMessage) == e.(message := "")
  {
  }

  /** Without `Tick` (the clock paused) the counters and the pending symbols
      stand still; only the key state and the message can change. */
  lemma {:induction false} NoTickNoTiming(e: Engine, evs: seq<Event>)
    requires Tick !in evs
    ensures var e' := Run(e, evs);
      e'.pressedTicks == e.pressedTicks && e'.unpressedTicks == e.unpressedTicks && e'.partial == e.partial
    ensures Samples(e, evs) == []
    decreases |evs|
  {
    if evs != [] {
      assert evs[0] != Tick;
      assert Tick !in evs[1..];
      NoTickNoTiming(Step(e, evs[0]), evs[1..]);
    }
  }

  /** While the key stays down, every `Tick` counts towards the same press run,
      however the ticks are spread out by pauses: the count is not reset. */
  lemma {:induction false} HeldKeyAccumulates(e: Engine, evs: seq<Event>)
    requires e.pressed && Release !in evs
    ensures Run(e, evs).pressed
    ensures Run(e, evs).pressedTicks == e.pressedTicks + CountTicks(evs)
    decreases |evs|
  {
    if evs != [] {
      assert Release !in evs[1..];
      HeldKeyAccumulates(Step(e, evs[0]), evs[1..]);
    }
  }

  lemma {:induction false} RunAppend(e: Engine, a: seq<Event>, b: seq<Event>)
    ensures Run(e, a + b) == Run(Run(e, a), b)
    decreases |a|
  {
    if a != [] {
      assert (a + b)[0] == a[0] && (a + b)[1..] == a[1..] + b;
      RunAppend(Step(e, a[0]), a[1..], b);
    } else {
      assert a + b == b;
    }
  }

  function Ticks(k: nat): seq<Event> {
    seq(k, _ => Tick)
  }

  /** Released ticks below the decode threshold: only the silence count moves. */
  lemma {:induction false} QuietTicks(e: Engine, k: nat)
    requires !e.pressed && e.pressedTicks == 0 && e.unpressedTicks + k <= LETTER_GAP_TICKS
    ensures Run(e, Ticks(k)) == e.(unpressedTicks := e.unpressedTicks + k)
    decreases k
  {
    if k > 0 {
      assert Ticks(k) == [Tick] + Ticks(k - 1);
      QuietTicks(OnTick(e), k - 1);
    }
  }

  /** Held ticks: the press run grows by one per tick. */
  lemma {:induction false} HeldTicks(e: Engine, k: nat)
    requires e.pressed
    ensures Run(e, Ticks(k)) == e.(pressedTicks := e.pressedTicks + k,
                                   unpressedTicks := if k == 0 then e.unpressedTicks else 0)
    decreases k
  {
    if k > 0 {
      assert Ticks(k) == [Tick] + Ticks(k - 1);
      HeldTicks(OnTick(e), k - 1);
    }
  }

  /** Keying a letter: press for `held > 0` ticks, release, and stay silent
      for `LETTER_GAP_TICKS` ticks appends one symbol and decodes nothing yet;
      one more silent tick decodes. */
  lemma KeySymbol(e: Engine, held: nat)
    requires !e.pressed && e.pressedTicks == 0 && held > 0
    ensures var e' := Run(e, [Press] + Ticks(held) + [Release] + Ticks(LETTER_GAP_TICKS));
      e' == e.(partial := e.partial + [Classify(held)], unpressedTicks := LETTER_GAP_TICKS)
    ensures var e' := Run(e, [Press] + Ticks(held) + [Release] + Ticks(LETTER_GAP_TICKS));
      OnTick(e').partial == [] &&
      OnTick(e').message == e.message + LetterOf(Decode(e.partial + [Classify(held)]))
  {
    var e1 := Step(e, Press);
    var e2 := Run(e1, Ticks(held));
    HeldTicks(e1, held);
    var e3 := Step(e2, Release);
    var e4 := OnTick(e3);
    assert Ticks(LETTER_GAP_TICKS) == [Tick] + Ticks(LETTER_GAP_TICKS - 1);
    QuietTicks(e4, LETTER_GAP_TICKS - 1);
    RunAppend(e, [Press], Ticks(held) + [Release] + Ticks(LETTER_GAP_TICKS));
    RunAppend(e1, Ticks(held), [Release] + Ticks(LETTER_GAP_TICKS));
    RunAppend(e2, [Release], Ticks(LETTER_GAP_TICKS));
    assert [Press] + Ticks(held) + [Release] + Ticks(LETTER_GAP_TICKS)
        == [Press] + (Ticks(held) + ([Release] + Ticks(LETTER_GAP_TICKS)));
  }

  /** `Press, Tick, Release` and ten ticks leave `[Dit]` pending and the
      message empty; the eleventh tick decodes it to `e`. */
  lemma ScenarioE()
    ensures var e1 := Run(Start(""), [Press] + Ticks(1) + [Release] + Ticks(10));
      e1.message == "" && e1.partial == [Dit] && Run(e1, Ticks(1)).message == "e"
  {
    KeySymbol(Start(""), 1);
    var e1 := Run(Start(""), [Press] + Ticks(1) + [Release] + Ticks(10));
    assert Ticks(1) == [Tick];
    assert Decode([Dit]) == Some('e');
  }

  /** A press of 1 tick and a press of 7 ticks, each followed by 11 silent
      ticks, spell `et`. */
  lemma ScenarioET()
    ensures Run(Start(""), [Press] + Ticks(1) + [Release] + Ticks(11)
                         + [Press] + Ticks(7) + [Release] + Ticks(11)).message == "et"
  {
    var first := [Press] + Ticks(1) + [Release] + Ticks(10);
    var second := [Press] + Ticks(7) + [Release] + Ticks(10);
    KeySymbol(Start(""), 1);
    var e1 := Run(Start(""), first);
    var e2 := OnTick(e1);
    assert Decode([Dit]) == Some('e');
    assert e2 == Start("e").(unpressedTicks := 11);
    KeySymbol(e2, 7);
    var e3 := Run(e2, second);
    var e4 := OnTick(e3);
    assert Decode([Dah]) == Some('t');
    assert e4.message == "et";
    assert Ticks(11) == Ticks(10) + [Tick];
    var all := [Press] + Ticks(1) + [Release] + Ticks(11) + [Press] + Ticks(7) + [Release] + Ticks(11);
    assert all == first + [Tick] + second + [Tick];
    RunAppend(Start(""), first + [Tick] + second, [Tick]);
    RunAppend(Start(""), first + [Tick], second);
    RunAppend(Start(""), first, [Tick]);
  }

  /** After a decode, more silence never changes the message. */
  lemma {:induction false} SilenceAfterDecode(e: Engine, k: nat)
    requires !e.pressed && e.pressedTicks == 0 && e.partial == []
    ensures Run(e, Ticks(k)).message == e.message && Run(e, Ticks(k)).partial == []
    decreases k
  {
    if k > 0 {
      assert Ticks(k) == [Tick] + Ticks(k - 1);
      IdleAfterDecode(e);
      SilenceAfterDecode(OnTick(e), k - 1);
    }
  }

  /** The state the model thread shares with the renderer. */
  class State {
    var buf: Ring.RingBuffer?
    var message: string

    /** `Decoder::new()`: an empty message and no usable buffer yet (the
        default buffer is replaced before any thread touches it). */
    constructor ()
      ensures buf == null && message == ""
    {
      message := "";
      buf := null;
    }

    /** `Decoder::run` line 81: a buffer as wide as the terminal; the message
        of an earlier session is kept. */
    method StartSession(width: nat)
      requires width > 0
      modifies this
      ensures fresh(buf) && fresh(buf.buf) && buf.Valid() && buf.Model() == Ring.Initial(width)
      ensures message == old(message)
    {
      buf := new Ring.RingBuffer(width);
    }
  }

  /** The model thread's `for e in receiver.iter()` loop over `events`. */
  method ModelThread(state: State, events: seq<Event>)
    returns (pressed: bool, pressedTicks: nat, unpressedTicks: nat, partial: seq<Symbol>)
    requires state.buf != null && state.buf.Valid()
    modifies state, state.buf, state.buf.buf
    ensures state.buf == old(state.buf) && state.buf.Valid()
    ensures state.buf.Model() == Ring.SampleAll(old(state.buf.Model()), Samples(Start(old(state.message)), events))
    ensures Engine(pressed, pressedTicks, unpressedTicks, partial, state.message)
         == Run(Start(old(state.message)), events)
  {
    ghost var e0 := Start(state.message);
    ghost var r0 := state.buf.Model();
    var buf := state.buf;
    pressed, unpressedTicks, pressedTicks, partial := false, 0, 0, [];
    for i := 0 to |events|
      invariant state.buf == buf && buf.Valid()
      invariant buf.Model() == Ring.SampleAll(r0, Samples(e0, events[..i]))
      invariant Engine(pressed, pressedTicks, unpressedTicks, partial, state.message) == Run(e0, events[..i])
    {
      ghost var before := Engine(pressed, pressedTicks, unpressedTicks, partial, state.message);
      match events[i] {
        case Tick =>
          buf.Sample(pressed);
          var message;
          pressedTicks, unpressedTicks, partial, message :=
            TickStep(pressed, pressedTicks, unpressedTicks, partial, state.message);
          state.message := message;
        case Press =>
          pressed := true;
        case Release =>
          pressed := false;
        case ClearMessage =>
          state.message := "";
      }
      assert events[..i + 1] == events[..i] + [events[i]];
      RunSnoc(e0, events[..i], events[i]);
      SamplesSnoc(e0, events[..i], events[i]);
      if events[i] == Tick {
        Ring.SampleAllSnoc(r0, Samples(e0, events[..i]), before.pressed);
      } else {
        assert Samples(e0, events[..i]) + [] == Samples(e0, events[..i]);
      }
    }
    assert events[..|events|] == events;
  }

  /** `Decoder::run`: a fresh buffer as wide as the terminal (line 81), then
      the model thread over `events`; the message carries over. */
  method RunSession(state: State, width: nat, events: seq<Event>)
    requires width > 0
    modifies state
    ensures state.buf != null && fresh(state.buf) && state.buf.Valid()
    ensures state.buf.Model() == Ring.SampleAll(Ring.Initial(width), Samples(Start(old(state.message)), events))
    ensures state.message == Run(Start(old(state.message)), events).message
  {
    state.StartSession(width);
    var pressed, pressedTicks, unpressedTicks, partial := ModelThread(state, events);
  }

  /** A new decoder, one session 80 columns wide, and a one-tick press
      followed by 11 silent ticks: the shared message reads `e`. */
  method SessionSpellsE() returns (message: string)
    ensures message == "e"
  {
    var d := new State();
    var first := [Press] + Ticks(1) + [Release] + Ticks(10);
    RunSession(d, 80, first + Ticks(1));
    ScenarioE();
    RunAppend(Start(""), first, Ticks(1));
    message := d.message;
  }
}
