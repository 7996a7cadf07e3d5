/** The share link: `encode`, `decode`, `updateLocation` and the hash-reading part of `init` in
    script.js (repeated verbatim in vae/script.js). A board is written as 256 digits, row after
    row, and the link's fragment is `#<digits>&<speed>`. */
module Codec {
  import opened Cells
  import Lookup
  import Board

  /** The text JavaScript appends for a cell value: its single decimal digit. */
  function DigitChar(v: Cell): (c: char)
    ensures '0' <= c <= '9'
    ensures c as int - '0' as int == v
  {
    (v + '0' as int) as char
  }

  predicate IsDigit(c: char) {
    '0' <= c <= '9'
  }

  /** The cell value `decode` stores for one character of the link: `parseInt` of a digit
      '1' .. '9' is that digit; '0' leaves the cell unset, and any other character parses to
      `NaN`; both of those read as off. */
  function CellOfChar(c: char): (v: Cell)
    ensures '1' <= c <= '9' ==> v == c as int - '0' as int
    ensures !('1' <= c <= '9') ==> v == Off
  {
    if '1' <= c <= '9' then c as int - '0' as int else 0
  }

  /** `bits.charAt(k)` read as a cell: past the end `charAt` gives the empty string, which
      parses to `NaN`, so the cell is off. */
  function CellAt(s: string, k: nat): (v: Cell)
    ensures k < |s| ==> v == CellOfChar(s[k])
    ensures k >= |s| ==> v == Off
  {
    if k < |s| then CellOfChar(s[k]) else 0
  }

  /** The digits of one row, left to right. */
  function EncodeRow(row: seq<Cell>): (s: string)
    ensures |s| == |row|
    ensures forall j :: 0 <= j < |row| ==> s[j] == DigitChar(row[j])
  {
    seq(|row|, j requires 0 <= j < |row| => DigitChar(row[j]))
  }

  /** The digits of rows 0 .. n-1: cell (i, j) is character `i * 16 + j`. */
  function EncodeRows(g: Grid, n: int): (s: string)
    requires 0 <= n <= Size
    ensures |s| == Size * n
    ensures forall k :: 0 <= k < |s| ==> IsDigit(s[k])
    ensures forall i, j :: 0 <= i < n && 0 <= j < Size ==> s[i * Size + j] == DigitChar(g[i][j])
    decreases n
  {
    if n == 0 then [] else EncodeRows(g, n - 1) + EncodeRow(g[n - 1])
  }

  /** `encode(board.data)`: 256 digits, cell (i, j) at position `i * 16 + j`. */
  function Encode(g: Grid): (s: string)
    ensures |s| == CellCount
    ensures forall k :: 0 <= k < |s| ==> IsDigit(s[k])
    ensures forall i, j :: InRange(i, j) ==> s[i * Size + j] == DigitChar(g[i][j])
  {
    EncodeRows(g, Size)
  }

  /** `decode(bits)`: cell (i, j) comes from character `i * 16 + j` of the text; characters past
      position 255 are ignored and positions past the end of a short text give off cells. */
  function Decode(s: string): (g: Grid)
    ensures forall i, j :: InRange(i, j) ==> g[i][j] == CellAt(s, i * Size + j)
  {
    var rows := seq<seq<Cell>>(16, i requires 0 <= i < 16 => seq<Cell>(16, j requires 0 <= j < 16 => CellAt(s, i * Size + j)));
    assert forall i :: 0 <= i < |rows| ==> |rows[i]| == Size;
    rows
  }

  /** A board survives its own link: decoding the encoding gives the same board. */
  lemma DecodeEncode(g: Grid)
    ensures Decode(Encode(g)) == g
  {
    var r := Decode(Encode(g));
    forall i | 0 <= i < Size
      ensures r[i] == g[i]
    {
      forall j | 0 <= j < Size
        ensures r[i][j] == g[i][j]
      {
        assert InRange(i, j);
      }
    }
  }

  /** A link of at least 256 characters is reproduced by decoding and re-encoding exactly when
      its first 256 characters are all digits; anything else (a letter, a sign) is read as 0
      and comes back as '0'. */
  lemma EncodeDecode(s: string)
    requires |s| >= CellCount
    ensures Encode(Decode(s)) == s[..CellCount] <==> forall k :: 0 <= k < CellCount ==> IsDigit(s[k])
  {
    var e := Encode(Decode(s));
    if forall k :: 0 <= k < CellCount ==> IsDigit(s[k]) {
      forall k | 0 <= k < CellCount
        ensures e[k] == s[k]
      {
        var i, j := k / Size, k % Size;
        assert k == i * Size + j;
        assert InRange(i, j);
      }
    }
  }

  /** Text after the 256th character never reaches the board: demo 4's pattern carries a
      trailing "&100" that `decode` drops. */
  lemma DecodeIgnoresTail(s: string, tail: string)
    requires |s| >= CellCount
    ensures Decode(s + tail) == Decode(s)
  {
    var a, b := Decode(s + tail), Decode(s);
    forall i | 0 <= i < Size
      ensures a[i] == b[i]
    {
      forall j | 0 <= j < Size
        ensures a[i][j] == b[i][j]
      {
        assert InRange(i, j);
        assert (s + tail)[i * Size + j] == s[i * Size + j];
      }
    }
  }

  /** A text shorter than 256 characters leaves the rest of the board off. */
  lemma ShortTextLeavesCellsOff(s: string, i: int, j: int)
    requires InRange(i, j) && |s| <= i * Size + j
    ensures Decode(s)[i][j] == Off
  {
  }

  /** Character `k` of the link is the digit of the cell at row-major position `k`. */
  lemma EncodeAt(g: Grid, k: int)
    requires 0 <= k < CellCount
    ensures InRange(k / Size, k % Size)
    ensures Encode(g)[k] == DigitChar(g[k / Size][k % Size])
  {
    var x, y := k / Size, k % Size;
    assert k == x * Size + y;
    assert InRange(x, y);
  }

  /** A click followed by `updateLocation` changes exactly one digit of the link: the one at
      the clicked cell's position, which becomes the cell's new value. */
  lemma ToggleChangesOneDigit(g: Grid, i: int, j: int, sound: Cell)
    requires InRange(i, j)
    ensures var r := Board.ToggleCell(g, i, j, sound);
      Encode(r) == Encode(g)[i * Size + j := DigitChar(r[i][j])]
  {
    var r := Board.ToggleCell(g, i, j, sound);
    var a, b := Encode(r), Encode(g)[i * Size + j := DigitChar(r[i][j])];
    forall k | 0 <= k < CellCount
      ensures a[k] == b[k]
    {
      var x, y := k / Size, k % Size;
      EncodeAt(r, k);
      EncodeAt(g, k);
      Board.RowMajorPosition(i, j);
      if x == i && y == j {
        assert k == i * Size + j;
      } else {
        assert k != i * Size + j;
        assert r[x][y] == g[x][y];
      }
    }
  }

  /** The link of the empty board is 256 zeros. */
  lemma EncodeBlank()
    ensures Encode(Blank()) == seq(CellCount, _ => '0')
  {
    var e := Encode(Blank());
    forall k | 0 <= k < CellCount
      ensures e[k] == '0'
    {
      EncodeAt(Blank(), k);
    }
  }

  /** Clicking the top-left cell of an empty board in synth mode gives the link digits "1"
      followed by 255 zeros. */
  lemma FirstClickLink()
    ensures Encode(Board.ToggleCell(Blank(), 0, 0, Board.GetSound(true))) == ['1'] + seq(255, _ => '0')
  {
    var r := Board.ToggleCell(Blank(), 0, 0, Board.GetSound(true));
    ToggleChangesOneDigit(Blank(), 0, 0, Board.GetSound(true));
    EncodeBlank();
    assert r[0][0] == Synth;
    var z: string := seq(CellCount, _ => '0');
    assert Encode(r) == z[0 := '1'];
    assert z[0 := '1'] == ['1'] + seq(255, _ => '0');
  }

  // ---------------------------------------------------------------------------
  // The fragment

  datatype Option<T> = None | Some(value: T)

  /** `updateLocation`: the fragment `#<digits>&<speed>`, `speed` being the text of the speed
      field after `parseInt`. */
  function Fragment(g: Grid, speed: string): (h: string)
    ensures |h| == CellCount + 2 + |speed|
    ensures h[0] == '#' && h[CellCount + 1] == '&'
    ensures h[1..CellCount + 1] == Encode(g) && h[CellCount + 2..] == speed
  {
    "#" + Encode(g) + "&" + speed
  }

  /** What `init` makes of `window.location.hash`: nothing when it is empty, otherwise the board
      decoded from the text before the first '&', and the animation speed taken from the text
      between the first and the second '&' when that text is non-empty. */
  datatype Loaded = NoHash | Loaded(grid: Grid, speed: Option<string>)

  /** `hash.split('&')` keeps only its first two parts here: the text before the first '&', and
      the text between it and the next '&' if there is a first '&'. Each part is the longest
      stretch free of '&' at its starting point. */
  function SplitAmp(t: string): (r: (string, Option<string>))
    ensures |r.0| <= |t| && r.0 == t[..|r.0|] && '&' !in r.0
    ensures |r.0| == |t| || t[|r.0|] == '&'
    ensures r.1.None? <==> '&' !in t
    ensures r.1.Some? ==> (
      && |r.0| < |t|
      && var rest := t[|r.0| + 1..];
      && |r.1.value| <= |rest| && r.1.value == rest[..|r.1.value|] && '&' !in r.1.value
      && (|r.1.value| == |rest| || rest[|r.1.value|] == '&'))
  {
    var a := Lookup.IndexOf(t, '&');
    if a == -1 then (t, None)
    else
      var rest := t[a + 1..];
      var b := Lookup.IndexOf(rest, '&');
      var second := if b == -1 then rest else rest[..b];
      (t[..a], Some(second))
  }

  /** The first part of the split is determined by where the first '&' is: any prefix free of
      '&' that ends at the end of the text or at a '&' is that part. */
  lemma FirstPartUnique(t: string, p: int)
    requires 0 <= p <= |t| && '&' !in t[..p] && (p == |t| || t[p] == '&')
    ensures SplitAmp(t).0 == t[..p]
  {
  }

  /** `init`'s hash handling. The `catch` that marks the link 'not-a-valid-pattern-url' is out
      of reach: `decode` accepts any text, so every non-empty fragment loads a board. */
  function Init(hash: string): (r: Loaded)
    ensures r.NoHash? <==> hash == ""
    ensures r.Loaded? ==> r.grid == Decode(SplitAmp(hash[1..]).0)
  {
    if hash == "" then NoHash
    else
      var parts := SplitAmp(hash[1..]);
      var speed := if parts.1.Some? && parts.1.value != "" then parts.1 else None;
      Loaded(Decode(parts.0), speed)
  }

  /** Reloading a link that `updateLocation` wrote brings back the same board and the same
      speed text; an empty speed text is ignored, as `init` skips an empty second part. */
  lemma FragmentRoundTrip(g: Grid, speed: string)
    requires '&' !in speed
    ensures Init(Fragment(g, speed)) == Loaded(g, if speed == "" then None else Some(speed))
  {
    var t := Fragment(g, speed)[1..];
    var e := Encode(g);
    assert t == e + "&" + speed;
    EncodingHasNoAmp(g);
    assert t[..CellCount] == e;
    FirstPartUnique(t, CellCount);
    var parts := SplitAmp(t);
    assert t[CellCount + 1..] == speed;
    DecodeEncode(g);
  }

  /** The digits of a board never contain the separator. */
  lemma EncodingHasNoAmp(g: Grid)
    ensures '&' !in Encode(g)
  {
  }

  /** Loading a link whose text before the first '&' is a board's encoding gives that board,
      whatever follows the '&'; with no '&' at all the speed is left as it was. */
  lemma InitReadsBoard(g: Grid, rest: string)
    requires rest == "" || rest[0] == '&'
    ensures Init("#" + Encode(g) + rest) == Loaded(g, Init("#" + Encode(g) + rest).speed)
    ensures rest == "" ==> Init("#" + Encode(g) + rest).speed == None
  {
    var t := ("#" + Encode(g) + rest)[1..];
    assert t == Encode(g) + rest;
    EncodingHasNoAmp(g);
    assert t[..CellCount] == Encode(g);
    FirstPartUnique(t, CellCount);
    DecodeEncode(g);
  }
}
