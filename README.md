# EVE website: terminal typewriter and snake background

This project models the two pieces of sequential logic in the EVE marketing
site's React Native Web components and proves properties of them in Dafny.

- **The terminal typewriter** (`components/TerminalBackup.js`). The terminal
  types three fixed sentences in turn. It types one character at a time,
  pauses, erases one character at a time, and then moves on to the next
  sentence modulo three. `typewriter.dfy` states one timer callback as the
  pure transition `Next` over `(currentText, isTyping, currentMessageIndex)`.
  It proves that the index stays in range and that the text is always a
  prefix of the current sentence. It also proves that `2·|sentence| + 2`
  callbacks take the machine from the start of one sentence to the start of
  the next, and that the whole machine returns to its mount state after 176
  callbacks. `terminal.dfy` holds the component as
  the class `Terminal`, whose fields are the React state. `Step` is one
  callback followed by the effect that mirrors the text into the transcript.
  `Submit` is the Enter-key handler. `PromptPrefix` is the prompt chosen for
  each transcript line.
- **The snake background** (`components/AnimatedLines.js`). `createSnake`
  builds a snake from configuration constants and four random draws. The
  throttled tick `moveSnakes` keeps the first ten snakes and computes each
  one's `x`/`y`. It drops snakes outside the screen padded by 50, and adds
  one fresh snake when fewer than five remain. `animated_lines.dfy` models
  snakes as values, the tick as the function `Tick`, and the component's refs
  as the class `SnakeLayer`, whose `MoveSnakes` method takes the clock
  reading and the random draws as parameters.

The snake tick, as written, does not move snakes:

- The `map` at `components/AnimatedLines.js:74-80` computes `x`/`y` from
  `position`, `direction` and `speed`, but never writes `position` back.
  Every tick therefore recomputes the same `x`/`y` for a snake
  (`AdvanceIdempotent`, `AdvanceAllIdempotent`).
- `speedX`/`speedY`, computed at lines 78-79 with a sign flip near the screen
  edges, are never read, and `direction` never changes.
- So on a screen of non-negative size that does not change, every snake
  stays at its entry point just left of the screen and inside the padded
  viewport. No snake is ever
  removed, and once five exist none is added (`StaysPut`,
  `InitialPopulationStays`, `SnakeLayer.MoveSnakes`).
- `SNAKE_CONFIG.MAX_SNAKES = 15` (line 14) is never read. The tick uses its
  own local limit of 10 through `slice(0, 10)` (lines 70-71).

## Model

| member | source | states |
|---|---|---|
| Typewriter.Next | components/TerminalBackup.js:47-77 | One callback keeps the index in [0, number of sentences), and it keeps the text a prefix of its sentence. |
| Typewriter.NextCases | components/TerminalBackup.js:51-73 | One callback always changes the state. Typing an incomplete sentence appends exactly its next character. A complete sentence switches to erasing with the text unchanged. Erasing removes exactly the last character and keeps the flag and index. An empty erased text advances the index modulo the sentence count and resumes typing. The index changes in no other way. |
| Typewriter.RunKeepsInv | components/TerminalBackup.js:49-70 | From a state whose text is a prefix of its sentence, every number of callbacks leads to such a state. |
| Typewriter.Reachable | components/TerminalBackup.js:36-77 | Every state reachable from the mount state (empty text, typing, sentence 0) has an index in [0, 3) and a text that is a prefix of that sentence. |
| Typewriter.TypeOut | components/TerminalBackup.js:51-56 | While typing, `m` callbacks extend the text to the sentence's first `|text| + m` characters, and the flag and index stay unchanged. |
| Typewriter.EraseOut | components/TerminalBackup.js:62-67 | While erasing, `m` callbacks remove the last `m` characters, and the flag and index stay unchanged. |
| Typewriter.TypeAndPause | components/TerminalBackup.js:51-60 | From an empty, typing state on sentence `i`, `|sentence i| + 1` callbacks show the whole sentence and switch to erasing. |
| Typewriter.EraseAndAdvance | components/TerminalBackup.js:62-73 | From the whole sentence `i` while erasing, `|sentence i| + 1` callbacks empty the text and start typing sentence `(i + 1) mod count`. |
| Typewriter.CyclesFromWrap | components/TerminalBackup.js:47-77 | Starting on sentence `i`, the callbacks for sentences `i` to the last lead back to the empty, typing state on sentence 0. |
| Typewriter.SentenceCycle | components/TerminalBackup.js:47-77 | From an empty, typing state on sentence `i`, `2·|sentence i| + 2` callbacks lead to the empty, typing state on sentence `(i + 1) mod count`. |
| Typewriter.Periodic | components/TerminalBackup.js:41-77 | One pass over the component's three sentences takes 176 callbacks, and afterwards the machine is back in its mount state. |
| TerminalWindow.PromptPrefix | components/TerminalBackup.js:155 | The prompt is `// ` exactly for system lines and `> ` exactly for user and assistant lines. |
| TerminalWindow.TrimStart | components/TerminalBackup.js:119 | The result is a suffix of the input. Everything removed is white space, and the result does not start with white space. |
| TerminalWindow.TrimEnd | components/TerminalBackup.js:119 | The result is a prefix of the input. Everything removed is white space, and the result does not end with white space. |
| TerminalWindow.TrimEmpty | components/TerminalBackup.js:119 | `trim()` gives the empty string exactly when every character of the input is white space. |
| TerminalWindow.SubmitAccepted | components/TerminalBackup.js:119 | The handler acts exactly when the key is `Enter` and the input has a character that is not white space. |
| TerminalWindow.Terminal.constructor | components/TerminalBackup.js:35-39 | The mounted component has sentence 0, is typing with empty text, has an empty input, and has a transcript of one empty system line (the transcript effect has run once). |
| TerminalWindow.Terminal.SyncMessages | components/TerminalBackup.js:79-81 | The transcript becomes exactly one system message whose content is the current text. |
| TerminalWindow.Terminal.Step | components/TerminalBackup.js:47-81 | The typewriter state moves by `Next`. When the text changed, the transcript is one system line with the new text; otherwise the transcript is unchanged. The input is untouched. The invariant holds again: prefix text, system line first, only user and assistant lines after it. |
| TerminalWindow.Terminal.ChangeInput | components/TerminalBackup.js:114-116 | The input takes the new text. |
| TerminalWindow.Terminal.Submit | components/TerminalBackup.js:118-128 | If the key is not `Enter` or the trimmed input is empty, nothing changes. Otherwise a user message holding the untrimmed input is appended, then the fixed assistant reply, and the input is cleared. The transcript invariant is kept. |
| TerminalWindow.Animate | components/TerminalBackup.js:47-81 | After `n` callbacks from mounting, the component's typewriter state is the pure machine's state after `n` steps, and its first transcript line shows that text. |
| AnimatedLines.TrailLength | components/AnimatedLines.js:31 | For a draw in [0, 1), the trail has between 52 and 71 dots. |
| AnimatedLines.EntryY | components/AnimatedLines.js:40 | On a screen of non-negative height the entry height lies within the middle 80% of the screen (strictly below 90% when the height is positive). |
| AnimatedLines.CreateSnake | components/AnimatedLines.js:29-46 | A new snake takes its id from the draw. It has 52 to 71 dots, each at (-37.5, 0), and direction (1, 0). Its position x and last turn x are both -37.5, and its entry height lies within the middle 80% of the screen. Its path is empty, it has 3 turns remaining, its speed is in [6, 9), and it has no computed `x`/`y` yet. |
| AnimatedLines.Population | components/AnimatedLines.js:49-57 | The initial effect creates one snake per set of draws, in order. Each takes its id from its draws, is well formed (52 to 71 dots, direction (1, 0), x = -37.5, height in the middle 80% of the screen, speed in [6, 9)), and has no computed `x`/`y` yet. |
| AnimatedLines.Advance | components/AnimatedLines.js:74-80 | The map sets `x`/`y` to position plus direction × speed. It changes nothing else: position, direction, speed, dots and id are copied. |
| AnimatedLines.AdvanceAll | components/AnimatedLines.js:74-80 | The map keeps the length and changes only the computed `x`/`y`/`speedX`/`speedY` of each snake, so a snake is well formed after it exactly when it was before. Mapping a mapped snake again gives the same snake. |
| AnimatedLines.Processed | components/AnimatedLines.js:70-80 | The slice and the map give the first `min(count, 10)` snakes, each advanced, in order. |
| AnimatedLines.Survivors | components/AnimatedLines.js:90-95 | The filter never lengthens the list. A snake is kept exactly when it is in the input and its `x`/`y` lie within [-50, width + 50] × [-50, height + 50]. |
| AnimatedLines.SurvivorsAppend | components/AnimatedLines.js:90-95 | Filtering distributes over concatenation, so survivors keep their relative order. |
| AnimatedLines.SurvivorsAllVisible | components/AnimatedLines.js:90-95 | A list whose snakes are all inside the padded viewport passes the filter unchanged. |
| AnimatedLines.Tick | components/AnimatedLines.js:69-100 | A tick leaves between 1 and 10 snakes. Each is an advanced snake from the first ten or the one fresh snake. Every advanced snake from the first ten that is inside the padded viewport is kept. The result starts with exactly the filter's survivors in the filter's order. One fresh snake follows exactly when fewer than 5 survive; otherwise the result is the survivors alone. |
| AnimatedLines.TickIgnoresTail | components/AnimatedLines.js:70-71 | Snakes beyond the first ten have no effect on a tick. |
| AnimatedLines.Opacity | components/AnimatedLines.js:126 | A dot's opacity lies in [0.4, 1]. It is 1 for the first dot, and it is 0.4 exactly from dot 21 on. |
| AnimatedLines.OpacityFades | components/AnimatedLines.js:126 | Opacity never increases along the trail. |
| AnimatedLines.AdvanceIdempotent | components/AnimatedLines.js:74-80 | Advancing an advanced snake gives the same snake: the position is never updated, so a snake does not travel between ticks. |
| AnimatedLines.AdvanceAllIdempotent | components/AnimatedLines.js:74-80 | Mapping a whole list a second time gives the same list. |
| AnimatedLines.WellFormedVisible | components/AnimatedLines.js:74-95 | On a screen of non-negative size, a well-formed snake, and so every new snake, is inside the padded viewport once advanced. |
| AnimatedLines.TickKeepsWellFormed | components/AnimatedLines.js:74-99 | If every snake is well formed before a tick, every snake is well formed after it: the map copies the shape, and a new snake is built well formed. |
| AnimatedLines.TickAllVisible | components/AnimatedLines.js:69-100 | A tick over five to ten snakes that all stay inside the viewport once advanced returns exactly those snakes advanced, in order, with none added. |
| AnimatedLines.SteadyPopulation | components/AnimatedLines.js:60-104 | Five to ten snakes that all stay inside the viewport once advanced are advanced in place by a tick with none added, and a second tick returns the same list. |
| AnimatedLines.StaysPut | components/AnimatedLines.js:60-104 | On a screen of non-negative size, a tick over five to ten well-formed snakes drops none and adds none; it only recomputes their `x`/`y`. |
| AnimatedLines.InitialPopulationStays | components/AnimatedLines.js:49-104 | On a screen of non-negative size, the first tick after mounting keeps all five initial snakes in order and adds none. |
| AnimatedLines.SnakeLayer.constructor | components/AnimatedLines.js:18-23 | The mounted component records the screen size and starts with no snakes, nothing rendered and a last update time of 0. |
| AnimatedLines.SnakeLayer.Initialize | components/AnimatedLines.js:49-57 | Only when there are no snakes, both the snake list and the rendered list become the five snakes built from the draws. Otherwise nothing changes. The invariant (at most 10 well-formed snakes, rendered list equal to the snake list) is kept. |
| AnimatedLines.SnakeLayer.MoveSnakes | components/AnimatedLines.js:60-104 | If less than 100 ms has passed since the last update, nothing changes. Otherwise the last update time becomes `now`, the snakes become the tick's result, and rendering gets a copy. The invariant is kept: at most 10 snakes, all well formed, with rendering showing the current list. On a screen of non-negative size, a tick over at least five snakes only recomputes their `x`/`y`. |

## Left out

- Timing is not modelled. This covers the random typing and erasing delays, the 2000 ms pause, the 1200 ms pause before the next sentence, and `clearTimeout` on re-render. They decide when a transition fires, not what it does.
- `requestAnimationFrame`, `cancelAnimationFrame` and `Date.now` are not modelled. The clock reading is a parameter of `MoveSnakes`, and rescheduling is not modelled.
- `Math.random` is not modelled. Its results are passed in as `Draws` values assumed to lie in [0, 1).
- JavaScript numbers are modelled as exact reals, so floating-point rounding of `0.8`, `0.1` and the divisions is not captured.
- Strings are sequences of Unicode scalar values, not UTF-16 code units. All the fixed sentences are ASCII.
- `SubmitAccepted`, `Trim`, `TrimStart` and `TrimEnd` assume that the white-space set of `trim()` is the fixed list of ECMAScript WhiteSpace and LineTerminator code points.
- React's render and effect scheduling is not modelled. `Step` applies one callback and the transcript effect together. `Submit` applies its two functional updates in order.
- `handleSubmit` is modelled, but the rendered component never attaches it: the input is not editable and has no key handler.
- Trail dots are `Animated.Value` objects that the code never changes. They are modelled as their initial values.
- The breathing animation, the scroll-to-end effect, the memoised styles and all rendering markup are presentation only.
- Snake ids are not shown to be unique, because they are random draws.
- `SnakeLayer`: the screen size is fixed at construction. A window resize, which the source picks up on the next render (`components/AnimatedLines.js:18-19`, reaching `createSnake` and `moveSnakes` through their dependency lists at lines 46 and 104), is not modelled. After a shrink, snakes built for the old height can fall outside the new padded viewport and be dropped, so `StaysPut`, `InitialPopulationStays` and the steady-state clause of `MoveSnakes` hold only while the window keeps its size.
- `FPS`, `frameDelay` and `SNAKE_CONFIG.MAX_SNAKES` are never read by the behaviour and are not modelled.
