/**
 * The timing classifier that both model threads run on every `Tick`
 * (src/decoder.rs:112-138 and its copy in src/lib.rs:129-155).
 *
 * The thread keeps the key state and two tick counters in locals; the counters
 * are the only record of how long the key has been down or up. A press run
 * ends on the first released tick and becomes a Dit or a Dah; a long enough
 * silence with no press run pending decodes the symbols collected so far.
 */
module Timing {
  import opened Options
  import opened Morse

  /** A press run shorter than this many ticks is a Dit; from here on, a Dah. */
  const DAH_TICKS: nat := 7

  /** Released ticks that must be exceeded before the pending symbols decode. */
  const LETTER_GAP_TICKS: nat := 10

  /** The model thread's locals (`pressed`, `pressed_ticks`, `unpressed_ticks`,
      `partial_symbol`) and the shared `message` it appends to. */
  datatype Engine = Engine(
    pressed: bool,
    pressedTicks: nat,
    unpressedTicks: nat,
    partial: seq<Symbol>,
    message: string)

  /** The locals as the thread starts, next to whatever message is shared. */
  function Start(message: string): Engine {
    Engine(false, 0, 0, [], message)
  }

  function Classify(pressedTicks: nat): Symbol {
    if pressedTicks < DAH_TICKS then Dit else Dah
  }

  /** The text `message.push(c)` adds for a decode result (nothing for `None`). */
  function LetterOf(decoded: Option<char>): string {
    match decoded
    case None => ""
    case Some(c) => [c]
  }

  /** Whether the tick about to be processed decodes the pending symbols. */
  predicate DecodeFires(e: Engine) {
    !e.pressed && e.pressedTicks == 0 && e.unpressedTicks + 1 > LETTER_GAP_TICKS
  }

  /** One `Tick` of the classifier (the ring sample is applied beside it).
      The key state is read, never written, and at most one symbol is added. */
  function OnTick(e: Engine): (r: Engine)
    ensures r.pressed == e.pressed && |r.partial| <= |e.partial| + 1
    ensures r.pressed <==> r.pressedTicks > 0
  {
    if e.pressed then
      e.(pressedTicks := e.pressedTicks + 1, unpressedTicks := 0)
    else
      var unpressed := e.unpressedTicks + 1;
      if e.pressedTicks > 0 then
        e.(unpressedTicks := unpressed, pressedTicks := 0,
           partial := e.partial + [Classify(e.pressedTicks)])
      else if unpressed > LETTER_GAP_TICKS then
        e.(unpressedTicks := unpressed, pressedTicks := 0,
           partial := [], message := e.message + LetterOf(Decode(e.partial)))
      else
        e.(unpressedTicks := unpressed, pressedTicks := 0)
  }

  /** The statements of the `Tick` branch that update the counters, the pending
      symbols and the message (the ring sample comes just before them). */
  method TickStep(pressed: bool, pressedTicks: nat, unpressedTicks: nat, partial: seq<Symbol>, message: string)
    returns (pressedTicks': nat, unpressedTicks': nat, partial': seq<Symbol>, message': string)
    ensures Engine(pressed, pressedTicks', unpressedTicks', partial', message')
         == OnTick(Engine(pressed, pressedTicks, unpressedTicks, partial, message))
  {
    pressedTicks', unpressedTicks', partial', message' := pressedTicks, unpressedTicks, partial, message;
    if pressed {
      pressedTicks' := pressedTicks' + 1;
      unpressedTicks' := 0;
    } else {
      unpressedTicks' := unpressedTicks' + 1;
      if pressedTicks' > 0 {
        partial' := partial' + [if pressedTicks' < 7 then Dit else Dah];
      } else if unpressedTicks' > 10 {
        var decoded := Decode(partial');
        partial' := [];
        match decoded
        case None =>
        case Some(c) => message' := message' + [c];
      }
      pressedTicks' := 0;
    }
  }

  /** At most one of the counters is non-zero. */
  predicate Exclusive(e: Engine) {
    e.pressedTicks == 0 || e.unpressedTicks == 0
  }

  /** Symbols are pending only inside the letter gap: the tick that ends a
      press run pushes a symbol and leaves the silence count at 1, and the
      tick that takes the count past `LETTER_GAP_TICKS` clears the list. */
  predicate PendingInGap(e: Engine) {
    Exclusive(e) && (e.partial != [] ==> e.unpressedTicks <= LETTER_GAP_TICKS)
  }

  lemma TickKeepsPendingInGap(e: Engine)
    requires PendingInGap(e)
    ensures PendingInGap(OnTick(e))
  {
  }

  /** The boundary run length belongs to Dah. */
  lemma ClassifyBoundary(k: nat)
    ensures Classify(k) == Dit <==> k < 7
    ensures Classify(6) == Dit && Classify(7) == Dah
  {
  }

  /** A held tick extends the press run and restarts the silence count. */
  lemma TickWhilePressed(e: Engine)
    requires e.pressed
    ensures OnTick(e) == e.(pressedTicks := e.pressedTicks + 1, unpressedTicks := 0)
    ensures Exclusive(OnTick(e))
  {
  }

  /** The first released tick after a press run of `k > 0` ticks appends
      exactly one symbol, classified by `k`, and decodes nothing. */
  lemma TickEndsPressRun(e: Engine)
    requires !e.pressed && e.pressedTicks > 0
    ensures OnTick(e).partial == e.partial + [if e.pressedTicks < 7 then Dit else Dah]
    ensures OnTick(e).pressedTicks == 0 && OnTick(e).unpressedTicks == e.unpressedTicks + 1
    ensures OnTick(e).message == e.message
  {
  }

  /** The decode trigger: an unpressed tick with no press run pending on which
      the silence count exceeds 10. It always clears the pending symbols and
      appends a letter exactly when they form one. */
  lemma TickDecodes(e: Engine)
    ensures DecodeFires(e) ==> OnTick(e).partial == []
    ensures DecodeFires(e) ==> OnTick(e).message == e.message + LetterOf(Decode(e.partial))
    ensures !DecodeFires(e) ==> OnTick(e).message == e.message
    ensures OnTick(e).partial == [] ==> DecodeFires(e) || e.partial == []
  {
  }

  /** Every tick leaves the counters exclusive, whatever they were. */
  lemma TickMakesExclusive(e: Engine)
    ensures Exclusive(OnTick(e))
  {
  }

  /** A tick adds at most one character to the message, and only a letter. */
  lemma TickMessageGrowth(e: Engine)
    ensures |OnTick(e).message| <= |e.message| + 1
    ensures OnTick(e).message[..|e.message|] == e.message
    ensures forall i :: |e.message| <= i < |OnTick(e).message| ==> IsLetter(OnTick(e).message[i])
  {
    if DecodeFires(e) {
      match Decode(e.partial)
      case None =>
      case Some(c) => DecodeInvertsEncode(e.partial, c);
    }
  }

  /** Once the pending symbols were decoded, further silence changes nothing
      but the silence count. */
  lemma IdleAfterDecode(e: Engine)
    requires !e.pressed && e.pressedTicks == 0 && e.partial == []
    ensures OnTick(e) == e.(unpressedTicks := e.unpressedTicks + 1)
  {
  }
}
