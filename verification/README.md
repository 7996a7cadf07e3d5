# BeatMapMusic step sequencer: a Dafny model

BeatMapMusic is a 16×16 step sequencer that runs in the browser. Each cell of the board is
off, a synth note (value 1) or a drum hit (value 2). A play loop walks the columns. Each
struck cell sends out a ripple, a ring that widens on every redraw. An "Improvise" button
sends the synth notes to a generative drum model and draws its answer back as drums. The
whole board can be shared as a link of the form `#<256 digits>&<speed>`.

This project models that logic as pure Dafny functions over an immutable board, and proves
what they do. It is organised by the program's own structure:

- `Lookup` (lookup.dfy): `indexOf` on arrays and strings.
- `Cells` (cells.dfy): the 16×16 matrix `Board.data`.
  - A cell's `on` value is a digit 0..9.
  - `undefined`, `0` and `NaN` behave identically in the program, so all three are 0 here.
- `Board` (board.dfy): the board operations.
  - `getSound`, `toggleCell`, `getSynthSequence` and `drawDreamSequence`.
  - The improvise round that chains the last two around the generative model.
- `Ripples` (ripples.dfy): the ripple engine.
  - `_updateRipples`, modelled as written.
  - The ring test of `_paintRippleCell`, stated exactly on squared distances.
- `Render` (render.dfy): `draw`.
  - One update pass, then `_paintSoundCell` before `_paintRippleCell` for every cell.
- `Playback` (playback.dfy): `Board.animate`, the `step` closure, and `playOrPause`.
  - `step` includes its wrap-around column counter.
  - When paused, `step` calls `clearAnimation`, which empties the ripple list.
- `Codec` (codec.dfy): the share link.
  - `encode`, `decode`, the `updateLocation` fragment, and the hash parsing of `init`.
  - script.js and vae/script.js hold identical copies of this code, and of `step`, so one model covers both.

Inputs replace the program's side channels:

- The coin flips of `Math.random() < 0.5` are a `seq<bool>`, one per generated note.
- The generative model's answer is an arbitrary `NoteSequence`.
- `window.location.hash` is a string.
- Sounds sent to the audio library are returned as `SoundEvent` values.

## Model

| member | source | states |
|---|---|---|
| Lookup.IndexOf | helpers.js:174 | `indexOf` returns -1 exactly when the value is absent; otherwise it returns a position holding the value with no earlier occurrence |
| Lookup.IndexOfDistinct | helpers.js:162 | in a table without repeats, looking up entry k gives k back |
| Board.GetSound | helpers.js:41-43 | the click sound is synth (1) exactly when synth mode is on, and drums (2) exactly when it is off |
| Board.PitchTablesDifferOnlyAtRow13 | helpers.js:24 | the playback pitch table and the model's pitch table (helpers.js:138) agree at every row except row 13 |
| Board.DrumPitchesDistinct | helpers.js:138 | the model's pitch table has no repeated pitch |
| Board.RowOfPitch | helpers.js:162-174 | looking up the pitch of row k in the table finds row k |
| Board.ToggleCell | helpers.js:122-128 | an on cell becomes 0, an off cell takes the given sound, and every other cell is unchanged |
| Board.ToggleTwiceRestores | helpers.js:123-128 | toggling an off cell twice gives back the original board, whatever the second sound is |
| Board.SynthCellsOnly | helpers.js:139-146 | every position the scan lists holds the synth value 1, and the list is strictly increasing (row-major order) |
| Board.SynthCellsCover | helpers.js:139-146 | every position that holds the synth value 1 is listed |
| Board.SynthCellsAgree | helpers.js:139-146 | two boards with their 1s in the same cells give the same list of synth positions |
| Board.EmittedNoteIsSynthCell | helpers.js:142-145 | every emitted note comes from a cell holding 1 |
| Board.SynthCellIsEmitted | helpers.js:142-145 | every cell holding 1 has its note emitted |
| Board.SynthNoteIff | helpers.js:138-146 | the note for (i, j) is emitted iff the cell holds 1; that note is `{pitch: drumPitches[i], start j, end j+1, isDrum}` |
| Board.SynthNotesRowMajor | helpers.js:139-146 | emitted notes come in row-major order: an earlier row first, and within a row an earlier column first |
| Board.ClearDrums | helpers.js:148-150 | afterwards no cell holds 2; cells that held 2 are 0; every other value, 3 included, is kept |
| Board.ClearDrumsIdempotent | helpers.js:148-150 | clearing the drums a second time changes nothing |
| Board.SynthNotesIgnoreDrums | helpers.js:139-152 | clearing drum cells in the same scan does not change which notes are emitted |
| Board.ScanCell | helpers.js:141-150 | after one more cell, the notes are still those of the synth cells scanned so far, in order, and exactly the scanned drum cells are cleared |
| Board.ScanRow | helpers.js:140-151 | after a full row, the notes are those of every synth cell of rows 0..i and the drums of rows 0..i are cleared, the rest untouched |
| Board.SynthNotesStep | helpers.js:142-145 | scanning one more cell appends its note exactly when it holds 1 |
| Board.GetSynthSequence | helpers.js:135-155 | the nested loop returns exactly the row-major synth notes at 4 steps per quarter, and the board with its drums cleared |
| Board.TargetRow | helpers.js:174-177 | the target row is always -1 or a row of the board |
| Board.TargetRowOfKnownPitch | helpers.js:174-177 | the pitch of row k < 7 lands on row k (tails) or k+7 (heads); the pitch of row k ≥ 7 always lands on row k |
| Board.TargetRowOfUnknownPitch | helpers.js:174-179 | a pitch missing from the table lands on row 6 on heads and is skipped (-1) on tails |
| Board.TargetRows | helpers.js:164-177 | note k gets a row computed with coin k, always -1 or on the board |
| Board.StruckMeansSomeNoteLands | helpers.js:164-184 | a cell counts as struck iff some processed note has that row and start column |
| Board.FaultStopsMerge | helpers.js:164-181 | once a note with a row has an off-board column, the loop stops for good: any longer prefix ends `Aborted` with the board as it stood before that note |
| Board.MergeNotes | helpers.js:164-185 | only the value 2 is written, never over a 1, and only on struck cells; the merge completes iff no note with a row has an off-board column; a completed merge turns every struck non-synth cell into 2 |
| Board.DrawDreamSequence | helpers.js:157-187 | the "bailing" log happens iff the generated notes equal the input's, and does not stop the merge; only 2 is written, never over a 1, and only where some note lands (row from its pitch and coin, column from its start step); the loop completes iff no note with a row has an off-board column, and then every non-synth cell a note lands on holds 2 |
| Board.StruckOnCoins | helpers.js:164-184 | with the rows the coins give, a cell is struck iff some note lands on it |
| Board.DrawSingleNote | helpers.js:164-184 | drawing a one-note answer is merging that note on the row its pitch and coin give |
| Board.UnknownPitchOnTails | helpers.js:174-179 | a note with an unknown pitch on tails leaves the board as it was |
| Board.MergeSingleNote | helpers.js:179-184 | one note on a board cell completes and gives the board with that one cell set to 2, or kept at 1 if it held 1 |
| Board.DrawnOnRowSix | helpers.js:174-184 | a note with an unknown pitch on heads is redirected to row 6: the result is the board with 2 written at row 6 of its column (unless that cell holds 1) and nothing else changed |
| Board.Improvise | vae/script.js:224-241 | the input is the board's synth notes; every synth cell survives and no new one appears; a 2 in the result was struck; an old 2 that was not struck is now 0; any other unstruck cell keeps its value; a completed merge turns every struck non-synth cell into 2; `forceInputToDrums` has no effect |
| Cells.Blank | helpers.js:95-118 | the reset board has every cell off |
| Ripples.UpdateRipples | helpers.js:264-273 | one pass never lengthens the list |
| Ripples.UpdateMatchesFates | helpers.js:264-273 | the pass equals the index-by-index account: a ripple right after a deleted one is kept as is, any other is deleted past distance 6 and grown otherwise, in order |
| Ripples.YoungRippleSurvives | helpers.js:265-271 | a ripple within distance 6 is never deleted; it is left ungrown exactly when the ripple before it was deleted |
| Ripples.SpliceFreeUpdate | helpers.js:266-271 | the splice-free pass (delete past 6, grow the rest, as the comment at helpers.js:266 describes) never yields a distance above 7 |
| Ripples.UpdateWithoutExpiry | helpers.js:264-273 | with no ripple past 6 the pass grows every ripple, the same as the splice-free pass |
| Ripples.UpdateAfterYoungPrefix | helpers.js:264-273 | ripples before the first expired one are grown, and the rest of the list is updated on its own |
| Ripples.SpliceSkipsNext | helpers.js:267-268 | after an expired ripple is spliced out, the next one is left untouched, where the splice-free pass would grow or delete it |
| Ripples.UpdateKeepsBounded | helpers.js:267-270 | distances in 0..7 stay in 0..7 after a pass |
| Ripples.LoneRippleLifetime | helpers.js:267-270 | a lone ripple spawned at 0 is at distance n after n ≤ 7 passes and is gone after the 8th |
| Ripples.JumpedRippleLivesLonger | helpers.js:264-273 | a ripple spawned right behind an expired one is jumped over on the first pass, so it is at distance 7 after eight passes and gone only after the ninth |
| Ripples.LoneRippleFrom | helpers.js:267-270 | a lone ripple at distance d grows by one per pass while it stays within 7 |
| Ripples.InRingMatchesDonut | helpers.js:305-311 | the squared-distance test agrees with `d > r - 0.7 && d < r + 0.7 && d < 3.5` on the square root d |
| Ripples.RingAtDistanceZero | helpers.js:305-311 | a ripple at distance 0 covers exactly its own origin |
| Ripples.NoRingFromDistanceFour | helpers.js:309-311 | a ripple at distance 4 or more covers no cell |
| Render.TintOf | helpers.js:287 | the tint is `synth` exactly for the value 1, and `drums` otherwise |
| Render.RingTints | helpers.js:300-315 | a cell gets a tint iff some ripple whose sound has that tint covers it |
| Render.CellLook | helpers.js:197-202 | a cell with a value is painted as that sound, never as a ripple, with the synth tint iff the value is 1; an off cell shows a ripple iff some ring covers it, with those rings' tints |
| Render.Paint | helpers.js:193-204 | the frame has 16×16 entries, and entry (i, j) is the look of cell (i, j) |
| Render.Draw | helpers.js:190-205 | the ripples come out as the fate-by-fate reference of one update pass says; the frame shows every non-zero cell as its sound (synth tint iff 1) and an off cell as a ripple iff an updated ring covers it |
| Render.OwnRippleHidden | helpers.js:198-202 | the ring of a freshly struck cell covers only that cell, which is painted as its sound |
| Playback.EventFor | helpers.js:226-230 | the value 1 plays the synth for its row; any other value plays the drum for its row |
| Playback.StrikeRows | helpers.js:208-235 | the row loop marks every row it passes, and emits one sound per spawned ripple |
| Playback.StrikeMarks | helpers.js:221-234 | a row is marked active iff its cell in the column is non-zero, and gets the time bar otherwise |
| Playback.StrikeSpawned | helpers.js:216-230 | each spawned ripple is `(row, col, 0, value)` for a non-zero row already passed, its sound event plays that row's value, and ripples come in increasing row order |
| Playback.StrikeComplete | helpers.js:216-220 | every non-zero row already passed has spawned its ripple `(row, col, 0, value)` |
| Playback.Animate | helpers.js:207-237 | each ripple and its sound come from a non-zero cell of the column, in increasing row order, each ripple at distance 0 with its cell's value and each sound `playSynth` iff the value is 1; empty cells get the time bar; the trailing `draw` takes old then new ripples through one update pass (fate-by-fate reference) and paints the board under the result |
| Playback.AnimateStrikesEverySound | helpers.js:216-220 | every non-zero cell of the column spawns its ripple `(row, col, 0, value)` in the tick |
| Playback.FreshRipplesAtDistanceOne | helpers.js:220-236 | if no older ripple is past 6, the tick grows every ripple, and the new ones end at distance 1 |
| Playback.FreshRippleLeftAtZero | helpers.js:264-273 | a new ripple right behind an expired one ends the tick at distance 0 |
| Playback.LoneSoundInColumn | helpers.js:217-230 | a column with one non-zero cell yields exactly one ripple and one sound |
| Playback.LoneSoundTick | helpers.js:207-237 | on an idle board such a tick leaves one ripple at distance 1 |
| Playback.SingleDrumTick | helpers.js:217-236 | a lone drum at (5, 3) plays `playDrum(5)` and leaves one ripple at (5, 3) with distance 1 |
| Playback.Step | script.js:88-106 | the column stays in 0..15; while playing it advances with wrap and keeps the tick's ripples; when paused the column is 0 and `clearAnimation` runs, emptying the ripples and removing the animation marks |
| Playback.NextColumn | script.js:93-96 | the next column is (c + 1) mod 16 |
| Playback.ColumnAfterIsModular | script.js:93-96 | n advances from column c reach (c + n) mod 16 |
| Playback.RunAdvancesColumn | vae/script.js:120-132 | while playing, n steps advance the column n times (so to (start + n) mod 16 by `ColumnAfterIsModular`) and playback stays on |
| Playback.StepKeepsRipplesBounded | script.js:88-101 | a step keeps every ripple distance within 0..7 |
| Playback.PlayOrPause | script.js:139-153 | the flag flips; pausing keeps the column and pauses the transport; playing restarts at column 0 and starts the transport |
| Playback.PauseThenStepClears | helpers.js:240-241 | after a pause, the pending step leaves column 0 and no ripples |
| Playback.PlayStartsAtColumnZero | script.js:81-90 | after play, the first step strikes column 0 and moves to column 1 |
| Codec.DigitChar | script.js:224 | a cell is written as its single decimal digit |
| Codec.CellOfChar | script.js:237-240 | '1'..'9' read as their value; '0' and any other character read as off |
| Codec.CellAt | vae/script.js:302-306 | a position past the end of the text reads as off |
| Codec.EncodeRows | script.js:222-226 | the digits of rows 0..n-1: 16n digits, with cell (i, j) at position 16i+j |
| Codec.Encode | script.js:220-228 | 256 digits, with cell (i, j) at position 16i+j |
| Codec.Decode | script.js:230-244 | cell (i, j) is read from character 16i+j, and is off past the end of the text |
| Codec.DecodeEncode | script.js:220-244 | decoding a board's encoding gives back the board |
| Codec.EncodeDecode | vae/script.js:286-310 | for a text of at least 256 characters, re-encoding its decoding gives its first 256 characters exactly when those are all digits |
| Codec.DecodeIgnoresTail | script.js:125 | text after position 255 does not affect the board (demo 4's "&100") |
| Codec.ShortTextLeavesCellsOff | vae/script.js:296-310 | cells beyond the end of a short text are off |
| Codec.EncodeAt | script.js:220-228 | character k of the link is the digit of the cell at row k / 16, column k mod 16 |
| Codec.EncodeBlank | script.js:220-228 | the empty board's link is 256 zeros |
| Codec.ToggleChangesOneDigit | script.js:64-78 | a click followed by `updateLocation` changes exactly the clicked cell's digit, to its new value |
| Codec.FirstClickLink | script.js:75-77 | a synth click on (0, 0) of an empty board gives the digits "1" followed by 255 zeros |
| Codec.Fragment | script.js:215-219 | the fragment is '#', then the 256 digits, then '&', then the speed text |
| Codec.SplitAmp | script.js:19-22 | the first part is the longest '&'-free prefix; the second part exists iff there is an '&', and is the '&'-free text after it |
| Codec.FirstPartUnique | script.js:20-21 | any '&'-free prefix that ends at the end of the text or at an '&' is the first part |
| Codec.Init | script.js:15-30 | an empty hash loads nothing; any other hash loads the board decoded from the text before the first '&' |
| Codec.FragmentRoundTrip | vae/script.js:281-285 | reloading a fragment written for a board and an '&'-free speed gives back that board, and that speed if it is non-empty |
| Codec.EncodingHasNoAmp | vae/script.js:286-294 | a board's digits contain no '&' |
| Codec.InitReadsBoard | vae/script.js:26-41 | a hash whose text before any '&' is a board's encoding loads that board; with no '&', no speed is set |

Behaviours of the code that are easy to misread:

- A ripple that is never jumped over is deleted on the eighth update pass after it was spawned. Each pass that jumps over it delays this by one.
  - `_updateRipples` tests `distance > 6` before incrementing.
  - So a lone ripple lives through distances 0..7 (`Ripples.LoneRippleLifetime`).
  - A ripple right behind an expired one is still alive at distance 7 after eight passes and is deleted by the ninth (`Ripples.JumpedRippleLivesLonger`).
- New ripples are not always at distance 1 after the tick that spawned them.
  - `splice` inside the forward loop skips the element after a deleted ripple.
  - A new ripple right behind an expired one stays at 0 for that tick (`Playback.FreshRippleLeftAtZero`).
  - They are all at 1 when no older ripple has expired (`Playback.FreshRipplesAtDistanceOne`).
- The ring test caps the radius at 3.5, so a ripple is visible only at distances 0..3.
  - At distance 4 the only passing squared distances would be 11 and 12, and neither is a sum of two squares.
  - This is one distance earlier than the cap alone suggests (`Ripples.NoRingFromDistanceFour`).
- The `catch` branch of `init` (marking the link 'not-a-valid-pattern-url') cannot be reached.
  - `decode` accepts any text, and `draw` cannot fail on the board it produces.
  - `Codec.Init` therefore has no error result.
- A generated note whose column lies off the board aborts `drawDreamSequence` part way through.
  - Reading `data[row][col]` gives `undefined`, and reading `.on` from it throws.
  - A note whose row is -1 is skipped before that read.
  - `Board.MergeNotes` returns `Aborted` with the cells written so far, because the board is mutated in place.

## Left out

- Audio: Tone.js synths, the Magenta drum kit, and transport start/pause. Sounds are recorded as `SoundEvent`s and transport changes as a `Transport` value. The synth's note-name table is not modelled.
- DOM: building the grid in `reset`, `classList` and `aria-label` changes, event listeners, and keyboard shortcuts. The painted frame is a `Look` per cell. The `bar`/`active` classes are a `Mark` per row of the current column. Stale `synth`/`drums` classes left on cells that are no longer ripples are not modelled.
- Model loading and generation, and the promise chains in `autoDrums`: the generated sequence is an arbitrary input.
- Timers: `setTimeout`/`clearTimeout`, and the second loop that starts if play is pressed again before a pending step fires. The model is the single-step transition `Playback.Step`.
- Randomness: `Math.random()` is replaced by explicit coin flips.
- `window.location` and number formatting: the speed is kept as the text `parseInt` produced, and `init` stores the text it finds. Only the fragment's string format is modelled.
- `JSON.stringify` comparison in `drawDreamSequence`: modelled as equality of the note lists. The two agree for notes built from integers and booleans with the same field order.
- Board.Improvise: the round is one atomic step. In the program, clicks and playback ticks can run between `getSynthSequence` and the promise callback that draws the answer; the model has no such interleaving.
- `loadDemo`: only its decoding is modelled (`Codec.DecodeIgnoresTail`).
- Board.ToggleCell: the trailing `this.draw()` is not part of the result. It runs one extra ripple update pass (`Render.Draw`) and repaints, so every click ages the ripples once more.
- Board.DrawDreamSequence: the trailing `this.draw()` is not part of the result either. It also runs one extra ripple update pass and repaints.
- Codec.Decode: characters are Unicode scalar values, while `charAt`, `slice` and `split` in the scripts index UTF-16 code units. The two agree on text within the Basic Multilingual Plane, which includes every link the program writes. `Codec.CellAt`, `Codec.SplitAmp` and `Codec.Init` share this limit.
