/** The text console: 25 lines of 80 cells in video memory, scrolled by a byte copy. It shows
    the last 25 lines of a terminal that never scrolls and has no bottom. */
module Console {

  const WIDTH: nat := 80
  const HEIGHT: nat := 25
  const CELLS: nat := 2000
  const LAST_LINE: nat := 1920

  type Byte = b: nat | b < 256
  const NEWLINE: Byte := 10
  const TAB: Byte := 9

  // ------------------------------------------------------------------ memcpy

  /** Where byte i of a forward byte copy comes from. A destination inside the source range is
      filled with repetitions of the bytes in front of it; every other copy is exact. */
  function CopySource(dest: nat, src: nat, n: nat, i: nat): (r: nat)
    requires i < n
    ensures src <= r < src + n
  {
    if src < dest < src + n then src + i % (dest - src) else src + i
  }

  lemma Repetition(i: nat, d: nat)
    requires 0 < d <= i
    ensures (i - d) % d == i % d
  {
    var q := i / d;
    assert i == d * q + i % d;
    Unique(i - d, d, q - 1, i % d);
  }

  lemma Unique(x: nat, d: nat, q: nat, r: nat)
    requires r < d && x == d * q + r
    ensures x % d == r
  {
    var p := x / d;
    assert x == d * p + x % d;
    if p < q {
      Multiples(d, p + 1, q);
    } else if p > q {
      Multiples(d, q + 1, p);
    }
  }

  lemma Multiples(d: nat, a: nat, b: nat)
    requires a <= b
    ensures d * a <= d * b
  {}

  /** Byte i is read either before the copy has written it, or where it was copied before. */
  lemma CopyStep(dest: nat, src: nat, n: nat, i: nat)
    requires i < n
    ensures dest <= src + i < dest + i ==> CopySource(dest, src, n, i) == CopySource(dest, src, n, src + i - dest)
    ensures !(dest <= src + i < dest + i) ==> CopySource(dest, src, n, i) == src + i
  {
    if src < dest < src + n && i >= dest - src { Repetition(i, dest - src); }
  }

  /** A byte comes from the same place of the source, or, where the source has been overwritten by
      the copy itself, is the byte that stands dest - src places before it. */
  lemma CopySourceIs(dest: nat, src: nat, n: nat, i: nat)
    requires i < n
    ensures dest <= src || i < dest - src ==> CopySource(dest, src, n, i) == src + i
    ensures src < dest && i >= dest - src ==>
      CopySource(dest, src, n, i) == CopySource(dest, src, n, i - (dest - src))
  {
    if src < dest {
      var d := dest - src;
      if i >= d { Repetition(i, d); } else { Unique(i, d, 0, i); }
    }
  }

  method Memcpy(buf: array<Byte>, dest: nat, src: nat, n: nat)
    requires dest + n <= buf.Length && src + n <= buf.Length
    modifies buf
    ensures forall j :: 0 <= j < buf.Length ==>
      buf[j] == if dest <= j < dest + n then old(buf[CopySource(dest, src, n, j - dest)]) else old(buf[j])
  {
    hide CopySource;
    var i := 0;
    while i < n
      invariant 0 <= i <= n
      invariant forall j :: 0 <= j < buf.Length ==>
        buf[j] == if dest <= j < dest + i then old(buf[CopySource(dest, src, n, j - dest)]) else old(buf[j])
    {
      CopyStep(dest, src, n, i);
      buf[dest + i] := buf[src + i];
      i := i + 1;
    }
  }

  // ------------------------------------------------------------------ the ideal terminal

  /** Cells written so far, in reading order without end, and the place of the cursor. */
  datatype Terminal = Terminal(text: map<nat, Byte>, at: nat)

  function CellOf(t: Terminal, i: nat): Byte { if i in t.text then t.text[i] else 0 }

  /** A newline (10) goes on to the next multiple of 80, a tab (9) to the next multiple of 8, and
      any other character is put where the cursor stands. */
  function PutOn(t: Terminal, c: Byte): (r: Terminal)
    ensures c == 10 ==> r.text == t.text && t.at < r.at <= t.at + 80 && r.at % 80 == 0
    ensures c == 9 ==> r.text == t.text && t.at < r.at <= t.at + 8 && r.at % 8 == 0
    ensures c != 10 && c != 9 ==> r.at == t.at + 1 && r.text == t.text[t.at := c]
  {
    if c == NEWLINE then t.(at := t.at + WIDTH - t.at % WIDTH)
    else if c == TAB then t.(at := t.at + 8 - t.at % 8)
    else Terminal(t.text[t.at := c], t.at + 1)
  }

  function Feed(t: Terminal, s: seq<Byte>): Terminal {
    if s == [] then t else PutOn(Feed(t, s[..|s| - 1]), s[|s| - 1])
  }

  lemma {:induction false} FeedConcat(t: Terminal, a: seq<Byte>, b: seq<Byte>)
    ensures Feed(t, a + b) == Feed(Feed(t, a), b)
  {
    if b == [] {
      assert a + b == a;
    } else {
      FeedConcat(t, a, b[..|b| - 1]);
      assert (a + b)[..|a + b| - 1] == a + b[..|b| - 1];
    }
  }

  /** The first line that is still visible. */
  function Top(t: Terminal): nat {
    if t.at / WIDTH < HEIGHT then 0 else t.at / WIDTH - (HEIGHT - 1)
  }

  /** Video memory holds what is written on t from line top on. */
  ghost predicate Written(video: seq<Byte>, t: Terminal, top: nat) {
    && |video| == 2 * CELLS
    && (forall i :: i in t.text ==> i < CELLS || i < t.at)
    && (forall k :: 0 <= k < CELLS ==> video[2 * k] == CellOf(t, WIDTH * top + k))
  }

  /** Video memory with the cursor at point is the window of t from its top line on. */
  ghost predicate Shows(video: seq<Byte>, point: nat, t: Terminal) {
    point < CELLS && t.at == WIDTH * Top(t) + point && Written(video, t, Top(t))
  }

  /** The screen as it is found is the start of a terminal. */
  function Found(video: seq<Byte>, point: nat): Terminal
    requires |video| == 2 * CELLS
  {
    Terminal(map k: nat | k < CELLS :: video[2 * k], point)
  }

  lemma FoundShows(video: seq<Byte>, point: nat)
    requires |video| == 2 * CELLS && point < CELLS
    ensures Shows(video, point, Found(video, point))
  {}

  /** Where the console's cursor goes before it looks whether to scroll. */
  function Moved(point: nat, c: Byte): nat {
    if c == NEWLINE then point + WIDTH - point % WIDTH
    else if c == TAB then point + 8 - point % 8
    else point + 1
  }

  /** On the screen the cursor goes where it goes on the terminal, and never beyond cell 2000. */
  lemma MovedIs(point: nat, c: Byte)
    requires point < 2000
    ensures point < Moved(point, c) <= 2000
    ensures c == 10 ==> Moved(point, c) <= point + 80 && Moved(point, c) % 80 == 0
    ensures c == 9 ==> Moved(point, c) <= point + 8 && Moved(point, c) % 8 == 0
    ensures c != 10 && c != 9 ==> Moved(point, c) == point + 1
  {
    var lines, stops := point / 80, point / 8;
    assert point + 80 - point % 80 == 80 * (lines + 1) && point + 8 - point % 8 == 8 * (stops + 1);
  }

  lemma InWindow(top: nat, x: nat)
    ensures (80 * top + x) % 80 == x % 80 && (80 * top + x) % 8 == x % 8 && (80 * top + x) / 80 == top + x / 80
  {
    assert 80 * top + x == 80 * (top + x / 80) + x % 80;
    assert 80 * top + x == 8 * (10 * top + x / 8) + x % 8;
  }

  /** Lines are a whole number of tab stops, so the cursor leaves the screen only exactly at
      its end; the window then moves by one line. */
  lemma CursorPlace(t: Terminal, point: nat, c: Byte)
    requires point < CELLS && t.at == WIDTH * Top(t) + point
    ensures PutOn(t, c).at == WIDTH * Top(t) + Moved(point, c)
    ensures Moved(point, c) <= CELLS
    ensures Top(PutOn(t, c)) == if Moved(point, c) < CELLS then Top(t) else Top(t) + 1
  {
    var top := Top(t);
    MovedIs(point, c);
    InWindow(top, point);
    InWindow(top, Moved(point, c));
  }

  /** Characters and attributes move up by 160 bytes; the last line keeps its attributes only. */
  ghost predicate Scrolled(before: seq<Byte>, after: seq<Byte>) {
    && |before| == |after| == 4000
    && forall j {:trigger after[j]} :: 0 <= j < 4000 ==>
         after[j] == if j < 3840 then before[j + 160] else if j % 2 == 0 then 0 else before[j]
  }

  /** Nothing is written at or beyond the cursor, so the line that scrolls in is blank. */
  lemma ScrollShows(before: seq<Byte>, after: seq<Byte>, t: Terminal, top: nat)
    requires Scrolled(before, after) && t.at == WIDTH * top + CELLS && Top(t) == top + 1
    requires Written(before, t, top)
    ensures Shows(after, LAST_LINE, t)
  {
    hide Top;
    forall k | 0 <= k < CELLS
      ensures after[2 * k] == CellOf(t, WIDTH * (top + 1) + k)
    {
      var j := 2 * k;
      assert j % 2 == 0;
      assert after[j] == if j < 3840 then before[j + 160] else 0;
      if k < LAST_LINE {
        var m := k + WIDTH;
        assert j + 160 == 2 * m && before[2 * m] == CellOf(t, WIDTH * top + m);
        assert WIDTH * (top + 1) + k == WIDTH * top + (k + WIDTH);
      } else {
        assert WIDTH * (top + 1) + k !in t.text;
      }
    }
  }

  // ------------------------------------------------------------------ the console

  class Console {
    const video: array<Byte>
    var point: nat
    /** The cursor position last sent to the CRT controller. */
    var shown: nat

    constructor (video: array<Byte>)
      requires video.Length == 2 * CELLS
      ensures this.video == video && point == 0 && shown == 0
    {
      this.video := video;
      point, shown := 0, 0;
    }

    /** scrollUpLine: every line moves up by one, and the last one is cleared. */
    method ScrollUpLine()
      requires video.Length == 2 * CELLS
      modifies this`point, video
      ensures point == 1920
      ensures Scrolled(old(video[..]), video[..])
    {
      Memcpy(video, 0, WIDTH * 2, LAST_LINE * 2);
      var i := LAST_LINE;
      while i < CELLS
        invariant LAST_LINE <= i <= CELLS
        invariant forall j :: 0 <= j < 4000 ==>
          video[j] == if j < 3840 then old(video[j + 160]) else if j % 2 == 0 && j < 2 * i then 0 else old(video[j])
      {
        video[i * 2] := 0;
        i := i + 1;
      }
      point := LAST_LINE;
    }

    /** The switch of puts: a character is written, or the cursor moves; the window stays. */
    method WriteOrMove(c: Byte, ghost t: Terminal)
      requires Shows(video[..], point, t)
      modifies this`point, video
      ensures point == Moved(old(point), c)
      ensures video[..] == if c == 10 || c == 9 then old(video[..]) else old(video[..])[2 * old(point) := c]
      ensures Written(video[..], PutOn(t, c), Top(t))
    {
      hide Top;
      ghost var top := Top(t);
      if c == NEWLINE {
        point := point + WIDTH - point % WIDTH;
      } else if c == TAB {
        point := point + 8 - point % 8;
      } else {
        video[point * 2] := c;
        point := point + 1;
      }
    }

    /** One character of puts. */
    method PutChar(c: Byte, ghost t: Terminal)
      requires Shows(video[..], point, t)
      modifies this`point, video
      ensures Shows(video[..], point, PutOn(t, c))
      ensures var next, w := Moved(old(point), c),
          if c == 10 || c == 9 then old(video[..]) else old(video[..])[2 * old(point) := c];
        if next < 2000 then point == next && video[..] == w else point == 1920 && Scrolled(w, video[..])
    {
      hide Top, PutOn, Moved, CellOf;
      CursorPlace(t, point, c);
      WriteOrMove(c, t);
      ghost var before := video[..];
      if point >= CELLS {
        ScrollUpLine();
        ScrollShows(before, video[..], PutOn(t, c), Top(t));
      }
    }

    /** puts; the string ends with a NUL that is not part of s. */
    method Puts(s: seq<Byte>, ghost t: Terminal)
      requires Shows(video[..], point, t)
      modifies this, video
      ensures Shows(video[..], point, Feed(t, s)) && shown == point
    {
      var i := 0;
      while i < |s|
        invariant 0 <= i <= |s| && Shows(video[..], point, Feed(t, s[..i]))
      {
        PutChar(s[i], Feed(t, s[..i]));
        assert s[..i + 1][..i] == s[..i];
        i := i + 1;
      }
      assert s[..i] == s;
      shown := point;
    }
  }
}
