# mo — a Dafny model of the Morse trainer core

`mo` is a terminal Morse-code trainer. A clock thread sends a `Tick` every
16 ms. An input thread sends `Press` and `Release` for the key (a mouse
button) and `ClearMessage` for the `c` key. One model thread drains these
events in order. On every `Tick` it samples the key state into a fixed-size
ring buffer, which the renderer draws as a scrolling trace. It also counts
consecutive pressed and released ticks:

- A press run shorter than 7 ticks becomes a Dit; 7 ticks or more becomes a Dah.
- When more than 10 released ticks pass with no press run pending, the
  collected symbols are looked up in the Morse table.
- A matching letter is appended to the message.

This project models:

- **`Ring`** (`ring.dfy`, src/ring.rs). `RingBuffer` is a class over a
  `bool` array with `start` and `end` cursors. Both iterators are classes
  with a cursor and a `Next` method. The ghost state `RingState` and the
  functions `Sampled`, `Visible` and `WindowOf` specify them. The lemmas
  prove the sliding-window property: the visible slots are always the last
  `len - 1` samples.
- **`Morse`** (`morse.dfy`, src/morse.rs). `Decode` and `Encode` follow the
  source's match arms in source order. The lemmas prove that the two are
  inverse on the 26 lower-case letters and that no other input has a code.
  `Display` is a method with the source's two loops.
- **`Timing`** (`timing.dfy`). `OnTick` specifies the `Tick` branch that
  src/decoder.rs and src/lib.rs share; the `TickStep` method implements it.
  The lemmas prove the thresholds, the decode trigger and the counter
  invariant.
- **`Decoder`** (`decoder.dfy`, src/decoder.rs). `ModelThread` is the model
  thread's `for` loop over an event sequence. Its contract ties the final
  locals, message and ring to the functions `Run` and `Samples`. The lemmas
  cover the pause quirk, the keying of a letter, and the concrete runs that
  spell `e` and `et`.
- **`Lib`** (`lib.dfy`, src/lib.rs). The same thread with two more arms:
  `Pause` sets the shared `paused` flag and `Shutdown` returns. This module
  also has the initial shared `State` and `run_decoder`'s build-then-run
  sequence. Nothing in src/lib.rs ever sends `Pause` or `Shutdown`:
  - the space key toggles an atomic flag (src/lib.rs:92-94), which only stops
    `Tick`s (src/lib.rs:114);
  - `q` stores a shutdown flag (src/lib.rs:87-90);
  - `state.paused` is never read.

  So those two arms are unreachable in the program. They are modelled as
  written, and the real pause is a stretch of events without `Tick`.
- **`Menu`** (`menu.dfy`, src/menu.rs). The selection moves between three
  saturating choices, `handle_key_event` changes the fields, and `run`
  loops until Enter and then resets `exit`.

In the source, `Choice::next` and `Choice::prev` assign a new value through
`&mut self` on a `Copy` enum. The model writes them as functions returning
the new choice, and the mutation happens in `Menu.HandleKeyEvent`.

Two details of the code matter for the model:

- `pressed_ticks` is reset on every released tick (src/decoder.rs:136,
  src/lib.rs:153), not only after a press run is classified. This is the
  same in effect, because the decode branch runs only when the count is
  already 0.
- `Decoder::run` replaces only the buffer (src/decoder.rs:81), so the
  message carries over into the next session (`Decoder.State.StartSession`,
  `Decoder.RunSession`).

## Model

| member | source | states |
|---|---|---|
| Ring.Initial | src/ring.rs:9-15 | `new(n)` gives n clear slots, `start = 0`, `end = n - 1`; the cursor invariant holds and the visible window is `n - 1` false values |
| Ring.RingBuffer.constructor | src/ring.rs:9-15 | builds a fresh array of `points > 0` slots whose state is `Initial(points)` (`points - 1` underflows for 0) |
| Ring.RingBuffer.Len | src/ring.rs:17-19 | the length of the slot vector, which is positive for every valid buffer |
| Ring.Sampled | src/ring.rs:21-26 | `sample(p)` keeps the invariant and the length, advances both cursors by one modulo the length, writes `p` at the old `end` (when there is more than one slot), clears the old `start` and leaves every other slot alone |
| Ring.RingBuffer.Sample | src/ring.rs:21-26 | the in-place update makes the array's new state equal `Sampled(old state, pressed)` and keeps the invariant |
| Ring.ReleasedSampleClearsOldest | src/ring.rs:21-26 | `sample(false)` changes only the slot under the old `start`, to false |
| Ring.SampleShiftsVisible | src/ring.rs:21-34 | with at least two slots, one sample drops the oldest visible value and appends the new one |
| Ring.SlidingWindow | src/ring.rs:21-34 | after any sequence of samples, the visible slots are the last `len - 1` values of the old visible slots followed by the samples |
| Ring.HeldKeyFillsWindow | src/ring.rs:21-34 | `len - 1` or more samples of `true` make the whole visible window `true` |
| Ring.RingBuffer.Iter | src/ring.rs:28-34 | `iter()` starts its cursor at `start` and has exactly the visible slots, oldest first, left to yield |
| Ring.VisibleIsWalk | src/ring.rs:28-34 | stepping the cursor from `start` until it meets `end` reads the `len - 1` visible slots |
| Ring.WalkIsSpan | src/ring.rs:84-92 | a cursor stepped by `(cur + 1) % len` until it meets `stop` reads `Dist(cur, stop)` consecutive slots with wrap-around |
| Ring.RingBufferIter.Next | src/ring.rs:84-92 | at the buffer's `end` it yields `None` and stays; otherwise it yields the slot under the cursor and advances it modulo the length |
| Ring.RingBuffer.Snapshot | src/ring.rs:28-34 | draining `iter()` until `None` collects exactly `Visible`, the `len - 1` slots oldest first |
| Ring.RingBuffer.Window | src/ring.rs:36-45 | `window(size, offset)` with `size <= len` puts the cursor at `(start + offset + 1) % len` and its end `size` steps further, so `WindowOf` is left to yield |
| Ring.WindowIsWalk | src/ring.rs:36-45 | `WindowOf` is what a cursor from `(start + offset + 1) % len` reads until `(cur + size) % len`; it is empty when `size == len` |
| Ring.WindowInsideVisible | src/ring.rs:36-45 | a window that fits inside the visible slots is their slice starting `offset + 1` after the oldest |
| Ring.RingBufferWindowIter.Next | src/ring.rs:65-73 | at its own `end` it yields `None` and stays; otherwise it yields the slot under the cursor and advances it modulo the length |
| Ring.RingBuffer.CollectWindow | src/ring.rs:36-45 | draining `window(size, offset)` collects exactly `WindowOf(size, offset)` |
| Ring.RingBuffer.At | src/ring.rs:48-54 | `buf[index]` reads the physical slot `index` of the array, for an index inside the buffer |
| Ring.AtIsVisible | src/ring.rs:48-54 | `Index` addresses physical slots, not trace positions: the `k`-th visible sample, oldest first, is the slot `k` steps after `start`, and the one slot never visible, `end`, is always clear |
| Morse.EncodeTotalAndRoundTrips | src/morse.rs:25-88 | every lower-case letter has a code, and decoding that code gives the letter back |
| Morse.EncodeOnlyLetters | src/morse.rs:58-88 | `encode_character` returns a code exactly for `a` to `z` |
| Morse.EncodeInjective | src/morse.rs:58-88 | two letters with the same code are the same letter |
| Morse.DecodeInvertsEncode | src/morse.rs:25-56 | whenever `decode_symbols` yields a character, it is a letter whose code is exactly the input |
| Morse.DecodeInvertsLength1 | src/morse.rs:25-56 | the same for one-symbol inputs |
| Morse.DecodeInvertsLength2 | src/morse.rs:25-56 | the same for two-symbol inputs |
| Morse.DecodeInvertsLength3 | src/morse.rs:25-56 | the same for three-symbol inputs |
| Morse.DecodeInvertsLength4 | src/morse.rs:25-56 | the same for four-symbol inputs |
| Morse.DecodeRejectsLength | src/morse.rs:25-56 | the empty sequence and any sequence of five or more symbols decode to `None` |
| Morse.DecodeShortTotal | src/morse.rs:25-56 | all 14 sequences of one to three symbols decode to a letter |
| Morse.DecodeLengthFour | src/morse.rs:25-56 | a four-symbol sequence fails to decode exactly when it is one of the four non-codes `..--`, `.-.-`, `---.` and `----` |
| Morse.Display | src/morse.rs:9-23 | for at most five symbols, the output is 10 characters: each symbol's glyph followed by a space, then spaces |
| Morse.Decode | src/morse.rs:25-56 | `decode_symbols`: the 26 letter codes in source order, anything else `None`; a result is always a lower-case letter from an input of one to four symbols |
| Morse.Encode | src/morse.rs:58-88 | `encode_character`: the 26 codes, `None` for any other character; a code exists only for a lower-case letter and is one to four symbols long |
| Morse.Glyph | src/morse.rs:12-15 | a bullet for a Dit and an em dash for a Dah, never the separating space |
| Timing.TickStep | src/decoder.rs:115-137 | the `Tick` branch's statements on the counters, the pending symbols and the message compute `OnTick` |
| Timing.OnTick | src/decoder.rs:115-137 | one `Tick` on the locals and message: the key state is only read, at most one symbol is added, and the press count is positive exactly while the key is down |
| Timing.ClassifyBoundary | src/decoder.rs:120-127 | a press run is a Dit exactly when it is shorter than 7 ticks; 6 gives Dit and 7 gives Dah |
| Timing.TickWhilePressed | src/decoder.rs:115-117 | a held tick adds one to the press count and zeroes the silence count |
| Timing.TickEndsPressRun | src/decoder.rs:118-127 | the first released tick after a press run appends exactly one classified symbol, zeroes the press count, adds one to the silence count and leaves the message alone |
| Timing.TickDecodes | src/decoder.rs:128-135 | the decode fires on a released tick with no press run pending once the silence count exceeds 10; it clears the pending symbols and appends the decoded letter, if any; any other tick leaves the message alone |
| Timing.TickMakesExclusive | src/decoder.rs:115-137 | after any tick at least one of the two counters is zero |
| Timing.TickKeepsPendingInGap | src/decoder.rs:115-137 | a tick keeps the counters exclusive and keeps the silence count within the letter gap while symbols are pending: a push leaves the count at 1, and the tick past 10 clears the list |
| Timing.TickMessageGrowth | src/decoder.rs:128-135 | a tick keeps the old message as a prefix and adds at most one character, which is a lower-case letter |
| Timing.IdleAfterDecode | src/decoder.rs:118-136 | once the pending symbols are empty, a silent tick only adds to the silence count |
| Decoder.ModelThread | src/decoder.rs:106-150 | draining the events leaves the locals and the message equal to `Run` from the starting locals, and the ring equal to sampling the key state of each `Tick` in order |
| Decoder.State.constructor | src/decoder.rs:16-33 | a new decoder starts with an empty message and no usable buffer |
| Decoder.State.StartSession | src/decoder.rs:80-81 | a session installs a fresh buffer, over a fresh slot array, as wide as the terminal; the buffer starts as `Initial(width)` and the message is kept |
| Decoder.RunSession | src/decoder.rs:77-150 | a session installs a fresh buffer of `width` slots, then the model thread runs on it; the ring ends as the initial ring sampled once per `Tick`, and the message is `Run` from the message carried over |
| Decoder.SessionSpellsE | src/decoder.rs:72-150 | a new decoder, one session, and a one-tick press followed by 11 silent ticks leave the message `e` |
| Decoder.Step | src/decoder.rs:111-149 | one event of the loop's `match`; any event but `Tick` leaves the counters and the pending symbols unchanged |
| Decoder.Run | src/decoder.rs:110-150 | the events drained in order; each adds at most one pending symbol |
| Decoder.Samples | src/decoder.rs:112-114 | the key states passed to `sample`, at most one per event |
| Decoder.OneSamplePerTick | src/decoder.rs:112-114 | the ring is sampled exactly once per `Tick` and for no other event |
| Decoder.WindowShowsRecentTicks | src/decoder.rs:112-114 | after any events, the visible trace is the key state at the last `len - 1` ticks |
| Decoder.RunKeepsExclusive | src/decoder.rs:115-137 | at least one counter stays zero through any event sequence |
| Decoder.RunKeepsPendingInGap | src/decoder.rs:110-150 | through any event sequence, symbols stay pending only while the silence count is within the letter gap |
| Decoder.LongSilenceHasNothingPending | src/decoder.rs:106-150 | from the start of a session, whenever the silence count is past 10 nothing is pending |
| Decoder.NonTickEvents | src/decoder.rs:139-148 | `Press` and `Release` only set the key state and are idempotent; `ClearMessage` only empties the message |
| Decoder.NoTickNoTiming | src/decoder.rs:97-99 | without `Tick` (the clock paused) the counters, the pending symbols and the ring stand still |
| Decoder.HeldKeyAccumulates | src/decoder.rs:115-117 | while the key stays down, the press count grows by the number of ticks, however pauses spread them out |
| Decoder.RunSnoc | src/decoder.rs:110-150 | the loop processes events one after another: one more event is one more `Step` |
| Decoder.RunAppend | src/decoder.rs:110-150 | draining `a + b` is draining `a`, then `b` |
| Decoder.QuietTicks | src/decoder.rs:118-137 | released ticks that stay within the threshold, with no press run pending, only add to the silence count |
| Decoder.HeldTicks | src/decoder.rs:115-117 | `k` held ticks add `k` to the press count and zero the silence count |
| Decoder.KeySymbol | src/decoder.rs:110-150 | press, `held` ticks, release and 10 silent ticks append one symbol classified by `held` and decode nothing yet; the next silent tick decodes the pending symbols, clears them and appends the letter, if any |
| Decoder.ScenarioE | src/decoder.rs:110-150 | a one-tick press and 10 silent ticks leave `[Dit]` pending; the eleventh silent tick spells `e` |
| Decoder.ScenarioET | src/decoder.rs:110-150 | a one-tick press and a seven-tick press, each followed by 11 silent ticks, spell `et` |
| Decoder.SilenceAfterDecode | src/decoder.rs:128-136 | after a decode, any amount of silence keeps the message and the empty pending symbols |
| Lib.State.constructor | src/lib.rs:43-48 | the shared state starts with a fresh buffer, over a fresh slot array, that is `Initial(width)`, no decoded letter, an empty message and `paused` false |
| Lib.ModelThread | src/lib.rs:121-175 | the loop ends at the first `Shutdown`; the locals, message, `paused` and ring equal `Run` and `Samples` over the events, and `decoded` is never written |
| Lib.RunDecoder | src/lib.rs:41-175 | the state built at lines 43-48, then the model thread: the ring is the initial ring sampled once per processed `Tick`, `message` and `paused` are as `Run` gives, and `decoded` stays `None` |
| Lib.Step | src/lib.rs:128-173 | one event of the loop's `match`; `paused` is set exactly by `Pause` and kept otherwise, and `Shutdown` changes nothing |
| Lib.Run | src/lib.rs:127-174 | the events drained until the first `Shutdown`; `paused`, once set, stays set |
| Lib.Samples | src/lib.rs:129-131 | the key states passed to `sample` before the first `Shutdown`, at most one per event |
| Lib.AgreesWithDecoder | src/lib.rs:127-169 | apart from `Pause` and `Shutdown`, each event acts on the locals and the message exactly as in src/decoder.rs |
| Lib.ShutdownEndsLoop | src/lib.rs:170-172 | events after a `Shutdown` change neither the state nor the ring |
| Lib.ShutdownAt | src/lib.rs:170-172 | the loop's result is fixed by the events before the first `Shutdown` |
| Lib.PauseOnlyPauses | src/lib.rs:162-165 | `Pause` sets `paused` and changes nothing else |
| Lib.PausedIffPauseProcessed | src/lib.rs:127-174 | `paused` ends up set exactly when it was set before or a `Pause` came before the first `Shutdown` |
| Lib.Processed | src/lib.rs:127-174 | the events the loop processes contain no `Shutdown` |
| Lib.NonTickEvents | src/lib.rs:156-169 | `Press` and `Release` only set the key state; `ClearMessage` only empties the message |
| Lib.OnlyTickSamples | src/lib.rs:129-131 | a single event samples the ring exactly when it is a `Tick`, and then with the current key state |
| Lib.RunKeepsExclusive | src/lib.rs:132-154 | at least one counter stays zero through any event sequence |
| Lib.RunSnoc | src/lib.rs:127-174 | before a `Shutdown`, one more event is one more `Step` |
| Lib.PrefixStep | src/lib.rs:127-174 | one more processed event extends the state and the ring samples by one step |
| Menu.Choice.Index | src/menu.rs:9-30 | each choice's discriminant is below 3 |
| Menu.Choice.Next | src/menu.rs:33-39 | `next` moves one row down by discriminant and stays on the last row |
| Menu.Choice.Prev | src/menu.rs:41-47 | `prev` moves one row up by discriminant and stays on the first row |
| Menu.Rows | src/menu.rs:19-30 | `rows()` builds three table rows |
| Menu.IndexSelectsRow | src/menu.rs:9-30 | discriminants and choices correspond one to one, each selects an existing row, and the default is row 0 |
| Menu.NextThenPrev | src/menu.rs:33-47 | `prev` undoes `next` except on the last row |
| Menu.PrevThenNext | src/menu.rs:33-47 | `next` undoes `prev` except on the first row |
| Menu.NextNIndex | src/menu.rs:33-39 | `k` moves down reach row `min(index + k, 2)` |
| Menu.PrevNIndex | src/menu.rs:41-47 | `k` moves up reach row `max(index - k, 0)` |
| Menu.Saturation | src/menu.rs:33-47 | from any choice, two or more `next`s give `Shutdown` and two or more `prev`s give `DecodeMode` |
| Menu.KeyFrames | src/menu.rs:102-110 | other keys change nothing; Up and Down never touch `exit`; Enter never touches the selection |
| Menu.HandleKey | src/menu.rs:102-110 | `handle_key_event` on the fields; `exit` ends up set exactly when it was set or the key is Enter |
| Menu.Drive | src/menu.rs:77-80 | the keys `run`'s loop reads; the loop ends exactly when it was over already or an Enter comes, and reads nothing once `exit` is set |
| Menu.DriveWithoutEnter | src/menu.rs:77-80 | without Enter the loop never ends and the selection follows the moves |
| Menu.DriveStopsAtEnter | src/menu.rs:77-80 | the first Enter ends the loop with the selection the earlier moves reached; later keys are never read |
| Menu.Menu.constructor | src/menu.rs:50-54 | a new menu starts with `exit` false on `DecodeMode` |
| Menu.Menu.HandleKeyEvent | src/menu.rs:102-110 | Up applies `prev`, Down applies `next`, Enter sets `exit`, anything else changes nothing |
| Menu.Menu.Run | src/menu.rs:75-84 | when the loop ends on Enter, `run` returns the selection and resets `exit` to false with the selection kept |

## Left out

- Threads, channels, `RwLock`s, atomics and sleeps. The model thread's input is a finite event sequence in one fixed interleaving of clock and input events, and each lock-protected update is one atomic step.
- Raw input dispatch (src/decoder.rs:165-195, src/lib.rs:83-106, src/menu.rs:90-100). This is device I/O through crossterm and termion. Pressing responds only to the left mouse button in src/lib.rs, while releasing responds to any button; that asymmetry is outside the model.
- The clock threads (src/decoder.rs:93-101, src/lib.rs:110-118). Pausing in src/decoder.rs only stops `Tick`s, so it appears in the model as a stretch of events without `Tick` (`Decoder.NoTickNoTiming`).
- All rendering: the `Widget` impls, the `Sparkline`, the cursor writes and the `margin` computation in src/lib.rs. `margin` is `(width - 59) / 2` on `u16` (src/lib.rs:42), computed before the state is built, so a terminal narrower than 59 columns panics in a debug build there; `Lib.RunDecoder` requires only `width > 0`, because the margin affects nothing but drawing. The same goes for src/code_table.rs, src/app.rs, src/main.rs and src/tui.rs, which are not part of this model.
- `Lib.State`: the `decoded` field is carried but never written, as in the source.
- `RingBuffer::default`, an empty vector that panics on `sample`. The decoder's default state is modelled as having no buffer (`null`), because `run` replaces it before use.
- Rust panics are preconditions:
  - `points - 1` underflows for 0 points (`Ring.RingBuffer.constructor`, `Lib.State.constructor`, `Decoder.State.StartSession`, `Decoder.RunSession`, `Lib.RunDecoder`);
  - the `assert!` in `window` (`Ring.RingBuffer.Window`);
  - an out-of-range `Index` (`Ring.RingBuffer.At`);
  - `5 - len` underflows in `Display` (`Morse.Display`).
- Timing.TickStep: both tick counters are unbounded `nat`s. The source's `i32` counters overflow after 2^31 ticks of 16 ms, about 398 days. For `pressed_ticks` that takes holding the key that long. `unpressed_ticks` gets there by leaving the program idle. A debug build panics there. In a release build the count wraps negative and `unpressed_ticks > 10` is false until it climbs back, but nothing is lost: when the count is past 10, no symbols are pending (`Decoder.LongSilenceHasNothingPending`), and the next press resets the count on its first held tick.
- Ring.RingBuffer.Window: `start + offset + 1` is computed on unbounded integers. The source's `usize` addition could overflow for offsets near `usize::MAX`.
- Menu.Menu.Run: the blocking `event::read()` becomes a finite key sequence. When the keys run out before Enter, the model returns `None` with the state reached, where the program would block. The `println!` of the choice and the terminal clear are left out.
