/** Playback: `Board.animate` and `Board.clearAnimation` of helpers.js, and the `step` closure and
    `playOrPause` of script.js (repeated in vae/script.js). The timer that calls `step` again
    after `animationSpeed` milliseconds is the caller iterating `Step`. */
module Playback {
  import opened Cells
  import opened Ripples
  import opened Render

  /** A sound sent to the audio collaborator: `playSynth(row)` or `playDrum(row)`. */
  datatype SoundEvent = PlaySynth(row: int) | PlayDrum(row: int)

  /** The class the current column's cell gets in a row: `active` on a struck cell, `bar` (the
      time bar) on an empty one. */
  datatype Mark = Active | Bar

  /** The value 1 plays the synth; any other non-zero value plays a drum. */
  function EventFor(i: int, sound: Cell): (e: SoundEvent)
    ensures e.row == i
    ensures e.PlaySynth? <==> sound == Synth
  {
    if sound == Synth then PlaySynth(i) else PlayDrum(i)
  }

  /** Ripple `r` and sound event `e` are what the row loop emits for a non-zero cell of column
      `col`: the ripple sits on that cell at distance 0 with its sound, and the event plays it. */
  predicate Sounded(g: Grid, col: int, r: Ripple, e: SoundEvent)
    requires 0 <= col < Size
  {
    && 0 <= r.x < Size && g[r.x][col] != Off
    && r == Ripple(r.x, col, 0, g[r.x][col])
    && e == EventFor(r.x, g[r.x][col])
  }

  /** What the row loop of `animate` produced so far. */
  datatype Strikes = Strikes(events: seq<SoundEvent>, spawned: seq<Ripple>, marks: seq<Mark>)

  /** The row loop of `animate(col)` over rows 0 .. n-1: every row gets its mark, and each row
      whose cell is non-zero adds one sound event and one spawned ripple. */
  function StrikeRows(g: Grid, col: int, n: int): (s: Strikes)
    requires 0 <= col < Size && 0 <= n <= Size
    ensures |s.marks| == n
    ensures |s.events| == |s.spawned|
  {
    if n == 0 then Strikes([], [], [])
    else
      var s := StrikeRows(g, col, n - 1);
      var i := n - 1;
      var sound := g[i][col];
      if sound != Off then
        Strikes(s.events + [EventFor(i, sound)], s.spawned + [Ripple(i, col, 0, sound)], s.marks + [Active])
      else
        Strikes(s.events, s.spawned, s.marks + [Bar])
  }

  /** Row `i` is marked active exactly when its cell is non-zero. */
  predicate MarksFaithful(g: Grid, col: int, n: int, s: Strikes)
    requires 0 <= col < Size && 0 <= n <= Size
  {
    |s.marks| == n && forall i :: 0 <= i < n ==> (s.marks[i] == Active <==> g[i][col] != Off)
  }

  /** Each spawned ripple, with its sound event, comes from a non-zero row below `n`, in
      increasing row order. */
  predicate SpawnedFaithful(g: Grid, col: int, n: int, s: Strikes)
    requires 0 <= col < Size
  {
    && |s.events| == |s.spawned|
    && (forall k :: 0 <= k < |s.spawned| ==> s.spawned[k].x < n && Sounded(g, col, s.spawned[k], s.events[k]))
    && (forall a, b :: 0 <= a < b < |s.spawned| ==> s.spawned[a].x < s.spawned[b].x)
  }

  /** Every non-zero row below `n` has spawned its ripple. */
  predicate SpawnedComplete(g: Grid, col: int, n: int, s: Strikes)
    requires 0 <= col < Size && 0 <= n <= Size
  {
    forall i :: 0 <= i < n && g[i][col] != Off ==> Ripple(i, col, 0, g[i][col]) in s.spawned
  }

  lemma {:induction false} StrikeMarks(g: Grid, col: int, n: int)
    requires 0 <= col < Size && 0 <= n <= Size
    ensures MarksFaithful(g, col, n, StrikeRows(g, col, n))
    decreases n
  {
    if n > 0 {
      StrikeMarks(g, col, n - 1);
    }
  }

  lemma {:induction false} StrikeSpawned(g: Grid, col: int, n: int)
    requires 0 <= col < Size && 0 <= n <= Size
    ensures SpawnedFaithful(g, col, n, StrikeRows(g, col, n))
    decreases n
  {
    if n > 0 {
      StrikeSpawned(g, col, n - 1);
      var prev := StrikeRows(g, col, n - 1);
      var s := StrikeRows(g, col, n);
      var i := n - 1;
      if g[i][col] != Off {
        var m := |prev.spawned|;
        assert s.spawned == prev.spawned + [Ripple(i, col, 0, g[i][col])];
        assert s.events == prev.events + [EventFor(i, g[i][col])];
        assert s.spawned[m] == Ripple(i, col, 0, g[i][col]) && s.events[m] == EventFor(i, g[i][col]);
        assert forall k :: 0 <= k < m ==> s.spawned[k] == prev.spawned[k] && s.events[k] == prev.events[k];
      } else {
        assert s.spawned == prev.spawned && s.events == prev.events;
      }
    }
  }

  lemma {:induction false} StrikeComplete(g: Grid, col: int, n: int)
    requires 0 <= col < Size && 0 <= n <= Size
    ensures SpawnedComplete(g, col, n, StrikeRows(g, col, n))
    decreases n
  {
    if n > 0 {
      StrikeComplete(g, col, n - 1);
    }
  }

  /** One call of `animate(col)`: the row loop, then the trailing `draw()`. */
  datatype Tick = Tick(events: seq<SoundEvent>, spawned: seq<Ripple>, marks: seq<Mark>,
                       ripples: seq<Ripple>, frame: seq<seq<Look>>)

  /** `animate(col)`. Each spawned ripple, with its sound event, comes from a sounding cell of
      the column, in increasing row order: the ripple sits on that cell at distance 0 with its
      sound, and the event is `playSynth` for the value 1 and `playDrum` otherwise (that no
      sounding cell is missed is `AnimateStrikesEverySound`). Off cells get the time bar. The
      trailing `draw()` then takes the older ripples followed by the new ones through one update
      pass, and the frame shows the board under the result. */
  function Animate(g: Grid, rs: seq<Ripple>, col: int): (t: Tick)
    requires 0 <= col < Size
    ensures |t.events| == |t.spawned|
    ensures forall k :: 0 <= k < |t.spawned| ==> Sounded(g, col, t.spawned[k], t.events[k])
    ensures forall a, b :: 0 <= a < b < |t.spawned| ==> t.spawned[a].x < t.spawned[b].x
    ensures |t.marks| == Size
    ensures forall i :: 0 <= i < Size ==> (t.marks[i] == Bar <==> g[i][col] == Off)
    ensures t.ripples == Survivors(Fates(rs + t.spawned))
    ensures Depicts(g, t.ripples, t.frame)
  {
    var s := StrikeRows(g, col, Size);
    StrikeMarks(g, col, Size);
    StrikeSpawned(g, col, Size);
    var d := Draw(g, rs + s.spawned);
    Tick(s.events, s.spawned, s.marks, d.ripples, d.frame)
  }

  /** Every sounding cell of the column spawns its ripple in the tick. */
  lemma AnimateStrikesEverySound(g: Grid, rs: seq<Ripple>, col: int)
    requires 0 <= col < Size
    ensures forall i :: 0 <= i < Size && g[i][col] != Off ==> Ripple(i, col, 0, g[i][col]) in Animate(g, rs, col).spawned
  {
    StrikeComplete(g, col, Size);
  }

  /** When no older ripple has expired, the trailing `draw()` grows every ripple, so the
      ripples just spawned end the tick at distance 1. */
  lemma FreshRipplesAtDistanceOne(g: Grid, rs: seq<Ripple>, col: int)
    requires 0 <= col < Size
    requires forall k :: 0 <= k < |rs| ==> rs[k].distance <= MaxDistance
    ensures var t := Animate(g, rs, col);
      t.ripples == GrowAll(rs) + GrowAll(t.spawned)
      && forall r :: r in t.ripples[|rs|..] ==> r.distance == 1
  {
    var t := Animate(g, rs, col);
    StrikeSpawned(g, col, Size);
    UpdateAfterYoungPrefix(rs, t.spawned);
    UpdateWithoutExpiry(t.spawned);
    assert t.ripples[|rs|..] == GrowAll(t.spawned);
  }

  /** When the last older ripple is deleted in the trailing `draw()`, the first ripple spawned
      after it is jumped over and ends the tick still at distance 0. */
  lemma FreshRippleLeftAtZero(expired: Ripple, a: Ripple, b: Ripple)
    requires expired.distance > MaxDistance && a.distance == 0 && b.distance == 0
    ensures UpdateRipples([expired] + [a, b]) == [a, Grow(b)]
  {
    var rs := [expired] + [a, b];
    assert rs[2..] == [b];
    assert [b][1..] == [];
  }

  /** A column with a single sounding cell, at row `r`, spawns exactly one ripple and sends
      exactly one sound, once the loop has passed row `r`. */
  lemma {:induction false} LoneSoundInColumn(g: Grid, col: int, r: int, n: int)
    requires 0 <= col < Size && 0 <= r < Size && 0 <= n <= Size
    requires g[r][col] != Off
    requires forall i :: 0 <= i < Size && i != r ==> g[i][col] == Off
    ensures var s := StrikeRows(g, col, n);
      && s.spawned == (if r < n then [Ripple(r, col, 0, g[r][col])] else [])
      && s.events == (if r < n then [EventFor(r, g[r][col])] else [])
    decreases n
  {
    if n > 0 {
      LoneSoundInColumn(g, col, r, n - 1);
      var prev := StrikeRows(g, col, n - 1);
      var s := StrikeRows(g, col, n);
      if n - 1 == r {
        assert prev.spawned == [] && prev.events == [];
        assert s.spawned == prev.spawned + [Ripple(r, col, 0, g[r][col])];
        assert s.events == prev.events + [EventFor(r, g[r][col])];
      } else {
        assert g[n - 1][col] == Off;
        assert s.spawned == prev.spawned && s.events == prev.events;
      }
    }
  }

  /** On an idle board, a column whose only sounding cell is at row `r` gives one sound and
      one ripple, which the trailing `draw()` grows to distance 1. */
  lemma LoneSoundTick(g: Grid, col: int, r: int)
    requires 0 <= col < Size && 0 <= r < Size
    requires g[r][col] != Off
    requires forall i :: 0 <= i < Size && i != r ==> g[i][col] == Off
    ensures var t := Animate(g, [], col);
      && t.events == [EventFor(r, g[r][col])]
      && t.spawned == [Ripple(r, col, 0, g[r][col])]
      && t.ripples == [Ripple(r, col, 1, g[r][col])]
  {
    var x := Ripple(r, col, 0, g[r][col]);
    assert UpdateRipples([x]) == [Ripple(r, col, 1, g[r][col])] by {
      UpdateWithoutExpiry([x]);
      assert GrowAll([x]) == [Grow(x)];
    }
    LoneSoundInColumn(g, col, r, Size);
    var s := StrikeRows(g, col, Size);
    assert s.spawned == [x];
    assert [] + s.spawned == [x];
  }

  /** The scenario of a single drum at row 5, column 3 and no ripples: one `playDrum(5)`, one
      ripple spawned at (5, 3) at distance 0, grown to distance 1 by the trailing `draw()`. */
  lemma SingleDrumTick()
    ensures var t := Animate(Write(Blank(), 5, 3, Drum), [], 3);
      t.events == [PlayDrum(5)] && t.spawned == [Ripple(5, 3, 0, Drum)] && t.ripples == [Ripple(5, 3, 1, Drum)]
  {
    var g := Write(Blank(), 5, 3, Drum);
    assert forall i :: 0 <= i < Size && i != 5 ==> g[i][3] == Off;
    LoneSoundTick(g, 3, 5);
  }

  // ---------------------------------------------------------------------------
  // The step loop

  /** The playback state: the `currentColumn` of the running `step` closure, the global
      `isAnimating` flag, and the board's ripple list. */
  datatype Player = Player(column: int, isAnimating: bool, ripples: seq<Ripple>)

  /** One `step()`: animate the current column, advance the column with a wrap from 16 to 0,
      then either keep going or, when playback was paused meanwhile, reset the column to 0 and
      clear the animation (`clearAnimation` empties the ripple list and the marks). */
  datatype StepResult = StepResult(next: Player, tick: Tick, cleared: bool)

  function Step(p: Player, g: Grid): (r: StepResult)
    requires 0 <= p.column < Size
    ensures 0 <= r.next.column < Size
    ensures r.next.isAnimating == p.isAnimating
    ensures r.tick == Animate(g, p.ripples, p.column)
    ensures p.isAnimating ==> r.next.column == NextColumn(p.column) && r.next.ripples == r.tick.ripples && !r.cleared
    ensures !p.isAnimating ==> r.next.column == 0 && r.next.ripples == [] && r.cleared
  {
    var t := Animate(g, p.ripples, p.column);
    if p.isAnimating then StepResult(Player(NextColumn(p.column), true, t.ripples), t, false)
    else StepResult(Player(0, false, []), t, true)
  }

  /** The `currentColumn` advance of `step`: add one and wrap 16 back to 0. */
  function NextColumn(c: int): (next: int)
    requires 0 <= c < Size
    ensures 0 <= next < Size
    ensures next == (c + 1) % Size
  {
    var next := c + 1;
    if next == 16 then 0 else next
  }

  /** The column reached from `c` after `n` advances. */
  function ColumnAfter(c: int, n: nat): (d: int)
    requires 0 <= c < Size
    ensures 0 <= d < Size
    decreases n
  {
    if n == 0 then c else ColumnAfter(NextColumn(c), n - 1)
  }

  /** `n` advances move the column by `n` modulo 16. */
  lemma {:induction false} ColumnAfterIsModular(c: int, n: nat)
    requires 0 <= c < Size
    ensures ColumnAfter(c, n) == (c + n) % Size
    decreases n
  {
    if n > 0 {
      ColumnAfterIsModular(NextColumn(c), n - 1);
      WrapAdd(c, n);
    }
  }

  /** Advancing one column with wrap-around, then `n - 1` more, is advancing `n`. */
  lemma WrapAdd(c: int, n: nat)
    requires 0 <= c < Size && n > 0
    ensures ((c + 1) % Size + (n - 1)) % Size == (c + n) % Size
  {
    if c + 1 == Size {
      assert (c + 1) % Size == 0;
      assert (c + n) % Size == (n - 1 + Size) % Size == (n - 1) % Size;
    } else {
      assert (c + 1) % Size == c + 1;
    }
  }

  /** `n` steps in a row with the board unchanged. */
  function Run(p: Player, g: Grid, n: nat): (q: Player)
    requires 0 <= p.column < Size
    ensures 0 <= q.column < Size
    decreases n
  {
    if n == 0 then p else Run(Step(p, g).next, g, n - 1)
  }

  /** While playing, the column after `n` steps is the start column advanced `n` times, and
      playback is still on. */
  lemma {:induction false} RunAdvancesColumn(p: Player, g: Grid, n: nat)
    requires 0 <= p.column < Size && p.isAnimating
    ensures Run(p, g, n).column == ColumnAfter(p.column, n)
    ensures Run(p, g, n).isAnimating
    decreases n
  {
    if n > 0 {
      RunAdvancesColumn(Step(p, g).next, g, n - 1);
    }
  }

  /** A step keeps every ripple distance within 0 .. 7. */
  lemma StepKeepsRipplesBounded(p: Player, g: Grid)
    requires 0 <= p.column < Size && Bounded(p.ripples)
    ensures Bounded(Step(p, g).next.ripples)
  {
    var t := Animate(g, p.ripples, p.column);
    assert Bounded(p.ripples + t.spawned);
    UpdateKeepsBounded(p.ripples + t.spawned);
  }

  /** The play/pause button's effect on the audio transport. */
  datatype Transport = StartTransport | PauseTransport

  /** `playOrPause`: flips `isAnimating`. Pausing tells the transport to pause and leaves the
      running closure as it is (its pending step will clean up); playing starts a new `animate()`
      loop, whose column starts at 0, and starts the transport. */
  function PlayOrPause(p: Player): (r: (Player, Transport))
    ensures r.0.isAnimating == !p.isAnimating
    ensures r.0.ripples == p.ripples
    ensures p.isAnimating ==> r.0.column == p.column && r.1 == PauseTransport
    ensures !p.isAnimating ==> r.0.column == 0 && r.1 == StartTransport
  {
    if p.isAnimating then (p.(isAnimating := false), PauseTransport)
    else (Player(0, true, p.ripples), StartTransport)
  }

  /** Pausing then letting the pending step fire leaves the column at 0 and no ripples, and
      the board is cleared of animation marks. */
  lemma PauseThenStepClears(p: Player, g: Grid)
    requires 0 <= p.column < Size && p.isAnimating
    ensures var r := Step(PlayOrPause(p).0, g);
      r.next.column == 0 && r.next.ripples == [] && r.cleared && !r.next.isAnimating
  {
  }

  /** Starting playback from a paused player strikes column 0 first. */
  lemma PlayStartsAtColumnZero(p: Player, g: Grid)
    requires !p.isAnimating
    ensures Step(PlayOrPause(p).0, g).tick == Animate(g, p.ripples, 0)
    ensures Step(PlayOrPause(p).0, g).next.column == 1
  {
  }
}
