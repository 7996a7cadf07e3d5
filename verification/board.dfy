/** The board operations of helpers.js that read and write cells: `NoiseyMakey.getSound`,
    `Board.toggleCell`, `Board.getSynthSequence` and `Board.drawDreamSequence`, and the
    improvise round of script.js / vae/script.js that chains the last two around a
    generative model (the model's answer is an input here). */
module Board {
  import opened Cells
  import Lookup

  /** Drum-kit pitch struck for each row during playback (`NoiseyMakey.magentaPitches`). */
  const MagentaPitches: seq<int> := [36, 38, 42, 46, 45, 48, 50, 49, 51, 35, 27, 29, 47, 30, 52, 44]

  /** Pitch exchanged with the generative model for each row (`drumPitches`). It is a different
      table from `MagentaPitches`: entry 13 is 55 here and 30 there. */
  const DrumPitches: seq<int> := [36, 38, 42, 46, 45, 48, 50, 49, 51, 35, 27, 29, 47, 55, 52, 44]

  /** The first rows whose generated notes may be mirrored `NumOtherPitches` rows lower. */
  const NumOtherPitches := 7

  /** The sound a click draws with: synth (1) when the synth is selected, drums (2) otherwise. */
  function GetSound(isSynth: bool): (s: Cell)
    ensures s == Synth <==> isSynth
    ensures s == Drum <==> !isSynth
  {
    if isSynth then Synth else Drum
  }

  lemma PitchTablesDifferOnlyAtRow13()
    ensures |MagentaPitches| == |DrumPitches| == Size
    ensures forall k :: 0 <= k < Size ==> (MagentaPitches[k] == DrumPitches[k] <==> k != 13)
  {
  }

  lemma DrumPitchesDistinct()
    ensures Lookup.Distinct(DrumPitches)
  {
  }

  /** Looking up the pitch of row `k` finds row `k` again. */
  lemma RowOfPitch(k: int)
    requires 0 <= k < Size
    ensures Lookup.IndexOf(DrumPitches, DrumPitches[k]) == k
  {
    DrumPitchesDistinct();
    Lookup.IndexOfDistinct(DrumPitches, k);
  }

  // ---------------------------------------------------------------------------
  // Toggling a cell

  /** A click on cell (i, j): an on cell (any non-zero value) is switched off, an off cell takes
      the requested sound. Nothing else on the board changes. */
  function ToggleCell(g: Grid, i: int, j: int, sound: Cell): (r: Grid)
    requires InRange(i, j)
    ensures g[i][j] != Off ==> r[i][j] == Off
    ensures g[i][j] == Off ==> r[i][j] == sound
    ensures forall a, b :: InRange(a, b) && (a != i || b != j) ==> r[a][b] == g[a][b]
  {
    Write(g, i, j, if g[i][j] != Off then Off else sound)
  }

  /** Clicking an off cell twice leaves the board as it was, whatever the second sound. */
  lemma ToggleTwiceRestores(g: Grid, i: int, j: int, first: Cell, second: Cell)
    requires InRange(i, j)
    requires g[i][j] == Off && first != Off
    ensures ToggleCell(ToggleCell(g, i, j, first), i, j, second) == g
  {
    var r := ToggleCell(ToggleCell(g, i, j, first), i, j, second);
    forall a | 0 <= a < Size
      ensures r[a] == g[a]
    {
    }
  }

  // ---------------------------------------------------------------------------
  // Synth cells to model input

  /** One note of a quantized note sequence. */
  datatype Note = Note(pitch: int, startStep: int, endStep: int, isDrum: bool)

  /** A quantized note sequence (`{notes, quantizationInfo: {stepsPerQuarter}}`). */
  datatype NoteSequence = NoteSequence(notes: seq<Note>, stepsPerQuarter: int)

  /** The note emitted for a synth cell at row i, column j. */
  function NoteAt(i: int, j: int): (n: Note)
    requires 0 <= i < Size
  {
    Note(DrumPitches[i], j, j + 1, true)
  }

  /** Row-major positions (16 * row + column) of the synth cells among the first `k` positions,
      in scan order. */
  function SynthCells(g: Grid, k: int): (ps: seq<int>)
    requires 0 <= k <= CellCount
    ensures forall m :: 0 <= m < |ps| ==> 0 <= ps[m] < k
  {
    if k == 0 then []
    else
      var prev := SynthCells(g, k - 1);
      if At(g, k - 1) == Synth then prev + [k - 1] else prev
  }

  /** Every listed position holds a synth, and the list is increasing. */
  predicate SynthOnly(g: Grid, ps: seq<int>)
  {
    && (forall m :: 0 <= m < |ps| ==> 0 <= ps[m] < CellCount && At(g, ps[m]) == Synth)
    && (forall a, b :: 0 <= a < b < |ps| ==> ps[a] < ps[b])
  }

  /** Every synth among the first `k` positions is listed. */
  predicate SynthCovered(g: Grid, k: int, ps: seq<int>)
    requires 0 <= k <= CellCount
  {
    forall p :: 0 <= p < k && At(g, p) == Synth ==> p in ps
  }

  /** Every listed position holds a synth, in increasing order. */
  lemma {:induction false} SynthCellsOnly(g: Grid, k: int)
    requires 0 <= k <= CellCount
    ensures SynthOnly(g, SynthCells(g, k))
    decreases k
  {
    if k > 0 {
      SynthCellsOnly(g, k - 1);
      var prev := SynthCells(g, k - 1);
      var ps := SynthCells(g, k);
      if At(g, k - 1) == Synth {
        assert ps == prev + [k - 1];
        assert forall m :: 0 <= m < |prev| ==> ps[m] == prev[m];
      } else {
        assert ps == prev;
      }
    }
  }

  /** Every synth position is listed. */
  lemma {:induction false} SynthCellsCover(g: Grid, k: int)
    requires 0 <= k <= CellCount
    ensures SynthCovered(g, k, SynthCells(g, k))
    decreases k
  {
    if k > 0 {
      SynthCellsCover(g, k - 1);
      var prev := SynthCells(g, k - 1);
      var ps := SynthCells(g, k);
      if At(g, k - 1) == Synth {
        assert ps == prev + [k - 1];
      } else {
        assert ps == prev;
      }
    }
  }

  /** The note of each listed position, in the same order. */
  function NotesAt(ps: seq<int>): (ns: seq<Note>)
    requires forall m :: 0 <= m < |ps| ==> 0 <= ps[m] < CellCount
  {
    seq(|ps|, m requires 0 <= m < |ps| => NoteAt(ps[m] / Size, ps[m] % Size))
  }

  /** The notes `getSynthSequence` emits, scanning the first `k` cells in row-major order. */
  function SynthNotes(g: Grid, k: int): (notes: seq<Note>)
    requires 0 <= k <= CellCount
  {
    NotesAt(SynthCells(g, k))
  }

  /** Each emitted note is the one-step drum note of a synth cell. */
  lemma EmittedNoteIsSynthCell(g: Grid, i: int, j: int)
    requires InRange(i, j)
    requires NoteAt(i, j) in SynthNotes(g, CellCount)
    ensures g[i][j] == Synth
  {
    var ps := SynthCells(g, CellCount);
    var ns := SynthNotes(g, CellCount);
    SynthCellsOnly(g, CellCount);
    SynthCellsCover(g, CellCount);
    var m :| 0 <= m < |ns| && ns[m] == NoteAt(i, j);
    var p := ps[m];
    var i', j' := p / Size, p % Size;
    assert NoteAt(i', j') == NoteAt(i, j);
    RowOfPitch(i);
    RowOfPitch(i');
    assert i' == i && j' == j;
    assert At(g, p) == g[i][j];
  }

  /** Each synth cell has its note emitted. */
  lemma SynthCellIsEmitted(g: Grid, i: int, j: int)
    requires InRange(i, j)
    requires g[i][j] == Synth
    ensures NoteAt(i, j) in SynthNotes(g, CellCount)
  {
    var ps := SynthCells(g, CellCount);
    var ns := SynthNotes(g, CellCount);
    SynthCellsOnly(g, CellCount);
    SynthCellsCover(g, CellCount);
    var p := Size * i + j;
    assert p / Size == i && p % Size == j;
    assert At(g, p) == Synth;
    var m :| 0 <= m < |ps| && ps[m] == p;
    assert ns[m] == NoteAt(i, j);
  }

  /** A note is emitted for cell (i, j) exactly when that cell holds the synth value 1; the note
      is the one-step drum note at the row's pitch starting on column j. */
  lemma SynthNoteIff(g: Grid, i: int, j: int)
    requires InRange(i, j)
    ensures NoteAt(i, j) in SynthNotes(g, CellCount) <==> g[i][j] == Synth
    ensures NoteAt(i, j) == Note(DrumPitches[i], j, j + 1, true)
  {
    if NoteAt(i, j) in SynthNotes(g, CellCount) {
      EmittedNoteIsSynthCell(g, i, j);
    }
    if g[i][j] == Synth {
      SynthCellIsEmitted(g, i, j);
    }
  }

  /** Notes are emitted in row-major order: a note of an earlier row, or of the same row and an
      earlier column, comes first. */
  lemma SynthNotesRowMajor(g: Grid, a: int, b: int)
    requires 0 <= a < b < |SynthNotes(g, CellCount)|
    ensures var ns := SynthNotes(g, CellCount);
      var ra, rb := Lookup.IndexOf(DrumPitches, ns[a].pitch), Lookup.IndexOf(DrumPitches, ns[b].pitch);
      ra < rb || (ra == rb && ns[a].startStep < ns[b].startStep)
  {
    var ps := SynthCells(g, CellCount);
    SynthCellsOnly(g, CellCount);
    SynthCellsCover(g, CellCount);
    RowOfPitch(ps[a] / Size);
    RowOfPitch(ps[b] / Size);
  }

  /** The board with every drum cell (value 2) switched off and every other cell as it was. */
  function ClearDrums(g: Grid): (r: Grid)
    ensures forall i, j :: InRange(i, j) ==> r[i][j] != Drum
    ensures forall i, j :: InRange(i, j) && g[i][j] != Drum ==> r[i][j] == g[i][j]
    ensures forall i, j :: InRange(i, j) && g[i][j] == Drum ==> r[i][j] == Off
  {
    seq(16, i requires 0 <= i < 16 => seq(16, j requires 0 <= j < 16 => if g[i][j] == Drum then Off else g[i][j]))
  }

  lemma ClearDrumsIdempotent(g: Grid)
    ensures ClearDrums(ClearDrums(g)) == ClearDrums(g)
  {
    var once := ClearDrums(g);
    var twice := ClearDrums(once);
    forall a | 0 <= a < Size
      ensures twice[a] == once[a]
    {
    }
  }

  /** The synth positions depend only on where the synth cells are. */
  lemma {:induction false} SynthCellsAgree(g: Grid, h: Grid, k: int)
    requires 0 <= k <= CellCount
    requires forall i, j :: InRange(i, j) ==> (g[i][j] == Synth <==> h[i][j] == Synth)
    ensures SynthCells(g, k) == SynthCells(h, k)
  {
    if k > 0 {
      SynthCellsAgree(g, h, k - 1);
      SameSynthAt(g, h, k - 1);
      var prev := SynthCells(g, k - 1);
      if At(g, k - 1) == Synth {
        assert SynthCells(g, k) == prev + [k - 1] == SynthCells(h, k);
      } else {
        assert SynthCells(g, k) == prev == SynthCells(h, k);
      }
    }
  }

  lemma SameSynthAt(g: Grid, h: Grid, p: int)
    requires 0 <= p < CellCount
    requires forall i, j :: InRange(i, j) ==> (g[i][j] == Synth <==> h[i][j] == Synth)
    ensures At(g, p) == Synth <==> At(h, p) == Synth
  {
    assert InRange(p / Size, p % Size);
  }

  /** Clearing the drums does not change which notes are emitted: the scan may clear a drum
      cell and emit synth notes in the same pass without the one disturbing the other. */
  lemma SynthNotesIgnoreDrums(g: Grid, k: int)
    requires 0 <= k <= CellCount
    ensures SynthCells(ClearDrums(g), k) == SynthCells(g, k)
    ensures SynthNotes(ClearDrums(g), k) == SynthNotes(g, k)
  {
    SynthCellsAgree(ClearDrums(g), g, k);
  }

  lemma NotesAtAppend(ps: seq<int>, p: int)
    requires forall m :: 0 <= m < |ps| ==> 0 <= ps[m] < CellCount
    requires 0 <= p < CellCount
    ensures NotesAt(ps + [p]) == NotesAt(ps) + [NoteAt(p / Size, p % Size)]
  {
  }

  /** The scan's board once it has visited every cell before (i, j) in row-major order: drum
      cells among them are off, every other cell is as in `g`. */
  ghost predicate ScannedUpTo(g: Grid, cleared: Grid, i: int, j: int) {
    forall a, b :: InRange(a, b) ==>
      cleared[a][b] == (if (a < i || (a == i && b < j)) && g[a][b] == Drum then Off else g[a][b])
  }

  lemma SynthCellsStep(g: Grid, k: int)
    requires 0 <= k < CellCount
    ensures SynthCells(g, k + 1) == if At(g, k) == Synth then SynthCells(g, k) + [k] else SynthCells(g, k)
  {
  }

  lemma RowMajorPosition(i: int, j: int)
    requires InRange(i, j)
    ensures (Size * i + j) / Size == i && (Size * i + j) % Size == j
  {
  }

  /** Scanning one more position appends the note of that cell exactly when it holds a synth. */
  lemma SynthNotesStep(g: Grid, i: int, j: int)
    requires InRange(i, j)
    ensures SynthNotes(g, Size * i + j + 1) ==
      if g[i][j] == Synth then SynthNotes(g, Size * i + j) + [NoteAt(i, j)] else SynthNotes(g, Size * i + j)
  {
    var k := Size * i + j;
    var ps := SynthCells(g, k);
    SynthCellsStep(g, k);
    RowMajorPosition(i, j);
    assert At(g, k) == g[i][j];
    if g[i][j] == Synth {
      assert SynthCells(g, k + 1) == ps + [k];
      NotesAtAppend(ps, k);
    } else {
      assert SynthCells(g, k + 1) == ps;
    }
  }

  /** Clearing cell (i, j) when it holds a drum extends the scanned region by that cell. */
  lemma ScannedStep(g: Grid, cleared: Grid, i: int, j: int)
    requires InRange(i, j) && ScannedUpTo(g, cleared, i, j)
    ensures ScannedUpTo(g, if g[i][j] == Drum then Write(cleared, i, j, Off) else cleared, i, j + 1)
  {
    assert cleared[i][j] == g[i][j];
  }

  /** The scan's state once it has visited every cell before (i, j) in row-major order: the
      notes of the synth cells among them, and the board with the drums among them cleared. */
  ghost predicate ScanState(g: Grid, notes: seq<Note>, cleared: Grid, i: int, j: int) {
    0 <= i < Size && 0 <= j <= Size && notes == SynthNotes(g, Size * i + j) && ScannedUpTo(g, cleared, i, j)
  }

  /** Visits cell (i, j) of the scan: a synth cell's note is appended, a drum cell is cleared. */
  method ScanCell(g: Grid, i: int, j: int, notes: seq<Note>, cleared: Grid)
    returns (notes': seq<Note>, cleared': Grid)
    requires j < Size && ScanState(g, notes, cleared, i, j)
    ensures ScanState(g, notes', cleared', i, j + 1)
  {
    SynthNotesStep(g, i, j);
    ScannedStep(g, cleared, i, j);
    notes', cleared' := notes, cleared;
    assert cleared[i][j] == g[i][j];
    if cleared[i][j] == Synth {
      notes' := notes + [NoteAt(i, j)];
    }
    if cleared[i][j] == Drum {
      cleared' := Write(cleared, i, j, Off);
    }
  }

  /** Visits row i of the scan, left to right. */
  method ScanRow(g: Grid, i: int, notes: seq<Note>, cleared: Grid)
    returns (notes': seq<Note>, cleared': Grid)
    requires ScanState(g, notes, cleared, i, 0)
    ensures notes' == SynthNotes(g, Size * (i + 1)) && ScannedUpTo(g, cleared', i + 1, 0)
  {
    notes', cleared' := notes, cleared;
    var j := 0;
    while j < Size
      invariant ScanState(g, notes', cleared', i, j)
    {
      notes', cleared' := ScanCell(g, i, j, notes', cleared');
      j := j + 1;
    }
    ScannedRow(g, notes', cleared', i);
  }

  /** Having visited the whole of row i is having visited everything before row i + 1. */
  lemma ScannedRow(g: Grid, notes: seq<Note>, cleared: Grid, i: int)
    requires ScanState(g, notes, cleared, i, Size)
    ensures notes == SynthNotes(g, Size * (i + 1)) && ScannedUpTo(g, cleared, i + 1, 0)
  {
    assert Size * i + Size == Size * (i + 1);
  }

  /** `getSynthSequence`: a row-major scan that emits a note for every synth cell and, in the
      same pass, switches every drum cell off. */
  method GetSynthSequence(g: Grid) returns (s: NoteSequence, cleared: Grid)
    ensures s.stepsPerQuarter == 4
    ensures s.notes == SynthNotes(g, CellCount)
    ensures cleared == ClearDrums(g)
  {
    var notes: seq<Note> := [];
    cleared := g;
    var i := 0;
    while i < Size
      invariant 0 <= i <= Size
      invariant notes == SynthNotes(g, Size * i)
      invariant ScannedUpTo(g, cleared, i, 0)
    {
      assert Size * i + 0 == Size * i;
      notes, cleared := ScanRow(g, i, notes, cleared);
      i := i + 1;
    }
    s := NoteSequence(notes, 4);
    var expected := ClearDrums(g);
    forall a | 0 <= a < Size
      ensures cleared[a] == expected[a]
    {
      forall b | 0 <= b < Size
        ensures cleared[a][b] == expected[a][b]
      {
        assert InRange(a, b);
      }
    }
  }

  // ---------------------------------------------------------------------------
  // Model output back onto the board

  /** The row a generated note is drawn on. `indexOf` finds the pitch's row (-1 if unknown); a row
      below 7 moves down 7 rows when the coin shows heads (`Math.random() < 0.5`). */
  function TargetRow(pitch: int, heads: bool): (row: int)
    ensures -1 <= row < Size
  {
    var k := Lookup.IndexOf(DrumPitches, pitch);
    if k < NumOtherPitches && heads then k + NumOtherPitches else k
  }

  /** A pitch of the table at row k < 7 lands on row k on tails and row k + 7 on heads; a pitch
      of a lower row always lands on its own row. */
  lemma TargetRowOfKnownPitch(k: int, heads: bool)
    requires 0 <= k < Size
    ensures TargetRow(DrumPitches[k], heads) == (if k < NumOtherPitches && heads then k + NumOtherPitches else k)
  {
    RowOfPitch(k);
  }

  /** An unknown pitch is found at -1, which is below 7 as well: on heads it is moved to row 6 and
      drawn, on tails it is skipped. */
  lemma TargetRowOfUnknownPitch(pitch: int, heads: bool)
    requires pitch !in DrumPitches
    ensures TargetRow(pitch, heads) == (if heads then 6 else -1)
  {
  }

  /** The row `drawDreamSequence` computes for each note, note k using coin k. */
  function TargetRows(notes: seq<Note>, coins: seq<bool>): (rows: seq<int>)
    requires |coins| == |notes|
    ensures |rows| == |notes|
    ensures forall k :: 0 <= k < |rows| ==> -1 <= rows[k] < Size
  {
    seq(|notes|, k requires 0 <= k < |notes| => TargetRow(notes[k].pitch, coins[k]))
  }

  /** Rows as `TargetRow` produces them: -1 (skip) or a row of the board. */
  predicate ValidRows(notes: seq<Note>, rows: seq<int>) {
    |rows| == |notes| && forall k :: 0 <= k < |rows| ==> -1 <= rows[k] < Size
  }

  /** A note drawn at a column off the board reads `data[row][col]` as undefined and throws;
      a note whose row is -1 is skipped before that read. */
  predicate Faults(n: Note, row: int) {
    row != -1 && !(0 <= n.startStep < Size)
  }

  /** Some note among the first `m` is drawn on cell (i, j). */
  predicate Struck(notes: seq<Note>, rows: seq<int>, m: int, i: int, j: int)
    requires ValidRows(notes, rows) && 0 <= m <= |notes|
  {
    m > 0 && (Struck(notes, rows, m - 1, i, j) || (rows[m - 1] == i && notes[m - 1].startStep == j))
  }

  lemma {:induction false} StruckMeansSomeNoteLands(notes: seq<Note>, rows: seq<int>, m: int, i: int, j: int)
    requires ValidRows(notes, rows) && 0 <= m <= |notes|
    ensures Struck(notes, rows, m, i, j) <==> exists k :: 0 <= k < m && rows[k] == i && notes[k].startStep == j
  {
    if m > 0 {
      StruckMeansSomeNoteLands(notes, rows, m - 1, i, j);
    }
  }

  /** How merging ended: every note processed, or stopped by a faulting note, with the cells
      written before the fault kept (the board is mutated in place). */
  datatype MergeOutcome = Merged(grid: Grid) | Aborted(grid: Grid)

  /** The loop of `drawDreamSequence` over the first `m` notes, `rows[k]` being note k's row.
      Only ever writes the drum value 2, never over a synth cell, and only on targeted cells;
      when no note faults, every targeted non-synth cell ends up a drum. */
  function MergeNotes(g: Grid, notes: seq<Note>, rows: seq<int>, m: int): (r: MergeOutcome)
    requires ValidRows(notes, rows) && 0 <= m <= |notes|
    ensures r.Merged? <==> forall k :: 0 <= k < m ==> !Faults(notes[k], rows[k])
    ensures forall i, j :: InRange(i, j) ==>
      r.grid[i][j] == g[i][j] || (g[i][j] != Synth && r.grid[i][j] == Drum)
    ensures forall i, j :: InRange(i, j) && r.grid[i][j] != g[i][j] ==> Struck(notes, rows, m, i, j)
    ensures r.Merged? ==> forall i, j :: InRange(i, j) ==>
      r.grid[i][j] == (if g[i][j] != Synth && Struck(notes, rows, m, i, j) then Drum else g[i][j])
  {
    if m == 0 then Merged(g)
    else
      match MergeNotes(g, notes, rows, m - 1)
      case Aborted(h) => Aborted(h)
      case Merged(h) =>
        var row, col := rows[m - 1], notes[m - 1].startStep;
        if row == -1 then Merged(h)
        else if !(0 <= col < Size) then Aborted(h)
        else if h[row][col] != Synth then Merged(Write(h, row, col, Drum))
        else Merged(h)
  }

  /** A faulting note ends the merge for good: however many further notes there are, the
      outcome is `Aborted` with the board as it stood before the fault. */
  lemma {:induction false} FaultStopsMerge(g: Grid, notes: seq<Note>, rows: seq<int>, k: int, m: int)
    requires ValidRows(notes, rows) && 0 <= k < m <= |notes|
    requires Faults(notes[k], rows[k])
    ensures MergeNotes(g, notes, rows, m) == Aborted(MergeNotes(g, notes, rows, k).grid)
    decreases m
  {
    if m > k + 1 {
      FaultStopsMerge(g, notes, rows, k, m - 1);
    }
  }

  /** What `drawDreamSequence` leaves: the merge outcome, and whether it logged that the model
      echoed its input. */
  datatype DreamResult = DreamResult(outcome: MergeOutcome, loggedBailing: bool)

  /** `drawDreamSequence`, with `coins[k]` the coin flipped for note k. The log line for an echoed
      input does not stop the merge. Only the drum value 2 is ever written, never over a synth
      cell, and only where some note lands (its pitch and coin give that row, its start step that
      column); the loop runs to the end exactly when no note with a row has a column off the
      board, and then every non-synth cell some note lands on holds 2. */
  function DrawDreamSequence(g: Grid, dream: NoteSequence, original: NoteSequence, coins: seq<bool>): (r: DreamResult)
    requires |coins| == |dream.notes|
    ensures r.loggedBailing <==> dream.notes == original.notes
    ensures r.outcome.Merged? <==> forall k :: 0 <= k < |dream.notes| ==>
      TargetRow(dream.notes[k].pitch, coins[k]) == -1 || 0 <= dream.notes[k].startStep < Size
    ensures forall i, j :: InRange(i, j) ==>
      r.outcome.grid[i][j] == g[i][j] || (g[i][j] != Synth && r.outcome.grid[i][j] == Drum)
    ensures forall i, j :: InRange(i, j) && r.outcome.grid[i][j] != g[i][j] ==> Lands(dream.notes, coins, i, j)
    ensures r.outcome.Merged? ==> forall i, j :: InRange(i, j) ==>
      r.outcome.grid[i][j] == (if g[i][j] != Synth && Lands(dream.notes, coins, i, j) then Drum else g[i][j])
  {
    var rows := TargetRows(dream.notes, coins);
    StruckOnCoins(dream.notes, coins);
    DreamResult(MergeNotes(g, dream.notes, rows, |dream.notes|), dream.notes == original.notes)
  }

  /** Some note lands on cell (i, j): its pitch and coin give row i and it starts at step j. */
  ghost predicate Lands(notes: seq<Note>, coins: seq<bool>, i: int, j: int)
    requires |coins| == |notes|
  {
    exists k :: 0 <= k < |notes| && TargetRow(notes[k].pitch, coins[k]) == i && notes[k].startStep == j
  }

  /** With the rows the coins give, a cell is struck by the whole sequence exactly when some
      note lands on it. */
  lemma StruckOnCoins(notes: seq<Note>, coins: seq<bool>)
    requires |coins| == |notes|
    ensures ValidRows(notes, TargetRows(notes, coins))
    ensures forall i, j :: Struck(notes, TargetRows(notes, coins), |notes|, i, j) <==> Lands(notes, coins, i, j)
  {
    var rows := TargetRows(notes, coins);
    forall i, j
      ensures Struck(notes, rows, |notes|, i, j) <==> Lands(notes, coins, i, j)
    {
      StruckMeansSomeNoteLands(notes, rows, |notes|, i, j);
    }
  }

  /** Drawing a one-note answer is merging that note on the row its pitch and coin give. */
  lemma DrawSingleNote(g: Grid, n: Note, heads: bool, original: NoteSequence)
    ensures DrawDreamSequence(g, NoteSequence([n], 4), original, [heads]).outcome
      == MergeNotes(g, [n], [TargetRow(n.pitch, heads)], 1)
  {
    assert TargetRows([n], [heads]) == [TargetRow(n.pitch, heads)];
  }

  /** An unknown pitch (one `indexOf` does not find) on tails draws nothing. */
  lemma UnknownPitchOnTails(g: Grid, pitch: int, col: int, original: NoteSequence)
    requires pitch !in DrumPitches
    ensures DrawDreamSequence(g, NoteSequence([Note(pitch, col, col + 1, true)], 4), original, [false]).outcome == Merged(g)
  {
    var n := Note(pitch, col, col + 1, true);
    TargetRowOfUnknownPitch(pitch, false);
    DrawSingleNote(g, n, false, original);
    assert MergeNotes(g, [n], [-1], 1) == Merged(g);
  }

  /** A single note on row `row` and a column of the board draws a drum there, unless the cell
      holds a synth, and changes nothing else. */
  lemma MergeSingleNote(g: Grid, n: Note, row: int)
    requires 0 <= row < Size && 0 <= n.startStep < Size
    ensures MergeNotes(g, [n], [row], 1)
      == Merged(Write(g, row, n.startStep, if g[row][n.startStep] == Synth then Synth else Drum))
  {
    var r := MergeNotes(g, [n], [row], 1);
    var w := Write(g, row, n.startStep, if g[row][n.startStep] == Synth then Synth else Drum);
    assert r.Merged?;
    forall i | 0 <= i < Size
      ensures r.grid[i] == w[i]
    {
      assert forall j :: 0 <= j < Size ==> r.grid[i][j] == w[i][j];
    }
  }

  /** A note with an unknown pitch on heads is drawn as a drum on row 6 unless that cell holds a
      synth; no other cell changes. */
  lemma DrawnOnRowSix(g: Grid, pitch: int, col: int, original: NoteSequence)
    requires pitch !in DrumPitches && 0 <= col < Size
    ensures DrawDreamSequence(g, NoteSequence([Note(pitch, col, col + 1, true)], 4), original, [true]).outcome
      == Merged(Write(g, 6, col, if g[6][col] == Synth then Synth else Drum))
  {
    var n := Note(pitch, col, col + 1, true);
    TargetRowOfUnknownPitch(pitch, true);
    DrawSingleNote(g, n, true, original);
    MergeSingleNote(g, n, 6);
  }

  /** One improvise round (`autoDrums` in script.js and vae/script.js): read the synth notes and
      clear the drums, hand the notes to the model, draw its answer `dream` back. vae/script.js
      passes `forceInputToDrums`, a parameter `getSynthSequence` does not declare, so it has no
      effect: the drums are cleared whichever way it is set. */
  method Improvise(g: Grid, forceInputToDrums: bool, dream: NoteSequence, coins: seq<bool>)
    returns (input: NoteSequence, r: DreamResult)
    requires |coins| == |dream.notes|
    ensures input.notes == SynthNotes(g, CellCount)
    ensures r.loggedBailing <==> dream.notes == input.notes
    ensures forall i, j :: InRange(i, j) ==> (r.outcome.grid[i][j] == Synth <==> g[i][j] == Synth)
    ensures var rows := TargetRows(dream.notes, coins);
      forall i, j :: InRange(i, j) && r.outcome.grid[i][j] == Drum ==> Struck(dream.notes, rows, |dream.notes|, i, j)
    ensures var rows := TargetRows(dream.notes, coins);
      forall i, j :: InRange(i, j) && g[i][j] == Drum && !Struck(dream.notes, rows, |dream.notes|, i, j) ==>
        r.outcome.grid[i][j] == Off
    ensures var rows := TargetRows(dream.notes, coins);
      forall i, j :: InRange(i, j) && g[i][j] != Drum && !Struck(dream.notes, rows, |dream.notes|, i, j) ==>
        r.outcome.grid[i][j] == g[i][j]
    ensures var rows := TargetRows(dream.notes, coins);
      r.outcome.Merged? ==> forall i, j :: InRange(i, j) && g[i][j] != Synth && Struck(dream.notes, rows, |dream.notes|, i, j) ==>
        r.outcome.grid[i][j] == Drum
  {
    var cleared;
    input, cleared := GetSynthSequence(g);
    r := DrawDreamSequence(cleared, dream, input, coins);
    StruckOnCoins(dream.notes, coins);
  }
}
