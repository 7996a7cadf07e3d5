/** `Board.draw` of helpers.js: every call first runs one ripple update pass, then paints each
    cell, a cell with a sound by `_paintSoundCell` and any other cell by `_paintRippleCell`. */
module Render {
  import opened Cells
  import opened Ripples

  /** The colour class a cell or ripple takes: `synth` for the value 1, `drums` for any other. */
  datatype Tint = SynthTint | DrumTint

  /** How one cell is painted: a sound (class `on` plus its tint), ripple decoration with the
      tints of every ring that covers it, or nothing. */
  datatype Look = SoundLook(tint: Tint) | RippleLook(tints: set<Tint>) | PlainLook

  function TintOf(sound: Cell): (t: Tint)
    ensures t == SynthTint <==> sound == Synth
  {
    if sound == Synth then SynthTint else DrumTint
  }

  /** The tints `_paintRippleCell` adds to cell (i, j): one for every ripple whose ring covers
      it. The loop visits the ripples in order; as a set, the order does not matter. */
  function RingTints(rs: seq<Ripple>, i: int, j: int): (ts: set<Tint>)
    ensures forall t :: t in ts <==> exists k :: 0 <= k < |rs| && InRing(rs[k], i, j) && TintOf(rs[k].sound) == t
  {
    if |rs| == 0 then {}
    else
      var last := rs[|rs| - 1];
      var prev := rs[..|rs| - 1];
      assert forall k :: 0 <= k < |prev| ==> prev[k] == rs[k];
      RingTints(prev, i, j) + (if InRing(last, i, j) then {TintOf(last.sound)} else {})
  }

  /** Some ring covers cell (i, j) exactly when the cell gets at least one tint. */
  lemma RingTintsEmpty(rs: seq<Ripple>, i: int, j: int)
    ensures RingTints(rs, i, j) == {} <==> forall k :: 0 <= k < |rs| ==> !InRing(rs[k], i, j)
  {
    if k :| 0 <= k < |rs| && InRing(rs[k], i, j) {
      assert TintOf(rs[k].sound) in RingTints(rs, i, j);
    }
  }

  /** Cell (i, j) as painted. A cell with a sound is always drawn as that sound and never as a
      ripple; an off cell shows a ripple exactly when some ring covers it. */
  function CellLook(g: Grid, rs: seq<Ripple>, i: int, j: int): (l: Look)
    requires InRange(i, j)
    ensures l.SoundLook? <==> g[i][j] != Off
    ensures l.SoundLook? ==> (l.tint == SynthTint <==> g[i][j] == Synth)
    ensures l.RippleLook? <==> g[i][j] == Off && exists k :: 0 <= k < |rs| && InRing(rs[k], i, j)
    ensures l.RippleLook? ==> forall t :: t in l.tints <==>
      exists k :: 0 <= k < |rs| && InRing(rs[k], i, j) && TintOf(rs[k].sound) == t
  {
    if g[i][j] != Off then SoundLook(TintOf(g[i][j]))
    else
      var ts := RingTints(rs, i, j);
      RingTintsEmpty(rs, i, j);
      if ts == {} then PlainLook
      else RippleLook(ts)
  }

  /** `frame` shows board `g` under ripples `rs`: sixteen rows of sixteen cells, a cell with a
      sound drawn as that sound in its tint, an off cell drawn as a ripple exactly when some
      ring covers it. */
  ghost predicate Depicts(g: Grid, rs: seq<Ripple>, frame: seq<seq<Look>>) {
    && |frame| == Size
    && (forall i :: 0 <= i < Size ==> |frame[i]| == Size)
    && (forall i, j :: InRange(i, j) ==> (frame[i][j].SoundLook? <==> g[i][j] != Off))
    && (forall i, j :: InRange(i, j) && frame[i][j].SoundLook? ==>
          (frame[i][j].tint == SynthTint <==> g[i][j] == Synth))
    && (forall i, j :: InRange(i, j) ==>
          (frame[i][j].RippleLook? <==> g[i][j] == Off && exists k :: 0 <= k < |rs| && InRing(rs[k], i, j)))
  }

  /** The whole board as painted, row by row. */
  function Paint(g: Grid, rs: seq<Ripple>): (frame: seq<seq<Look>>)
    ensures |frame| == Size
    ensures forall i :: 0 <= i < Size ==> |frame[i]| == Size
    ensures forall i, j :: InRange(i, j) ==> frame[i][j] == CellLook(g, rs, i, j)
  {
    seq(16, i requires 0 <= i < 16 => seq(16, j requires 0 <= j < 16 => CellLook(g, rs, i, j)))
  }

  /** The result of `draw()`: the updated ripple list and the painted frame. */
  datatype Drawn = Drawn(ripples: seq<Ripple>, frame: seq<seq<Look>>)

  /** `draw()`: the ripples come out as the fate-by-fate reference of one update pass says
      (each one grown, kept or deleted), and the frame shows the board under those updated
      ripples, not the ones passed in. */
  function Draw(g: Grid, rs: seq<Ripple>): (d: Drawn)
    ensures d.ripples == Survivors(Fates(rs))
    ensures Depicts(g, d.ripples, d.frame)
  {
    var updated := UpdateRipples(rs);
    UpdateMatchesFates(rs);
    Drawn(updated, Paint(g, updated))
  }

  /** A struck cell's own ripple never decorates it: at distance 0 a ring covers only its
      origin, and the origin holds a sound, which is painted as that sound. */
  lemma OwnRippleHidden(g: Grid, r: Ripple)
    requires InRange(r.x, r.y) && g[r.x][r.y] != Off && r.distance == 0
    ensures forall i, j :: InRange(i, j) && InRing(r, i, j) ==> CellLook(g, [r], i, j).SoundLook?
  {
    forall i, j | InRange(i, j) && InRing(r, i, j)
      ensures CellLook(g, [r], i, j).SoundLook?
    {
      RingAtDistanceZero(r, i, j);
    }
  }
}
