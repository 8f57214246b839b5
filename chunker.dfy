/**
 * The sliding-window chunker of the offline index builder (`split_into_chunks`).
 *
 * Starting at offset 0 the loop looks at the window `[start, min(start + size, n))`,
 * keeps the stripped window text when it is not empty, stops once a window
 * reaches the end of the text, and otherwise moves `start` to `end - overlap`.
 */
module Chunker {
  import opened Text

  /** A window `[start, end)` of the text examined by the loop. */
  datatype Window = Window(start: nat, end: nat)

  /** The source never checks its parameters. With `size > 0` and
      `overlap < size` every step moves `start` forward, so the loop stops;
      otherwise it can spin forever (e.g. `overlap >= size`). */
  predicate ValidParams(size: int, overlap: int) {
    0 < size && overlap < size
  }

  /** Where the window starting at `start` ends: `min(start + size, n)`. */
  function WindowEnd(n: nat, size: int, start: nat): (end: nat)
    requires 0 < size
    ensures end <= n && (start < n ==> start < end)
    ensures end - start <= size
  {
    if start + size < n then start + size else n
  }

  /** The windows the loop examines for a text of length `n`, from `start` on. */
  function WindowsFrom(n: nat, size: int, overlap: int, start: nat): seq<Window>
    requires ValidParams(size, overlap)
    decreases n - start
  {
    if start >= n then []
    else
      var end := WindowEnd(n, size, start);
      if end == n then [Window(start, end)]
      else [Window(start, end)] + WindowsFrom(n, size, overlap, end - overlap)
  }

  function Windows(n: nat, size: int, overlap: int): seq<Window>
    requires ValidParams(size, overlap)
  {
    WindowsFrom(n, size, overlap, 0)
  }

  predicate InWindow(w: Window, i: int) {
    w.start <= i < w.end
  }

  /** The stripped text of a window. Every window the loop examines lies
      within the text (`WindowsFromBounds`); any other window has no text. */
  function WindowText(text: string, w: Window): string {
    if w.start <= w.end <= |text| then Strip(text[w.start..w.end]) else []
  }

  predicate WindowsIn(text: string, ws: seq<Window>) {
    forall k :: 0 <= k < |ws| ==> ws[k].start <= ws[k].end <= |text|
  }

  /** What one window contributes: its stripped text, unless that is empty. */
  function Piece(text: string, w: Window): seq<string> {
    var chunk := WindowText(text, w);
    if |chunk| == 0 then [] else [chunk]
  }

  /** The chunks a list of windows yields, in order. */
  function ChunksOf(text: string, ws: seq<Window>): seq<string> {
    if ws == [] then [] else Piece(text, ws[0]) + ChunksOf(text, ws[1..])
  }

  /** The chunks collected from the windows `ws` in order, after `found`. */
  function CollectOf(text: string, ws: seq<Window>, found: seq<string>): seq<string> {
    if ws == [] then found
    else
      var chunk := WindowText(text, ws[0]);
      CollectOf(text, ws[1..], if |chunk| != 0 then found + [chunk] else found)
  }

  /** The chunks held after examining the window that starts at `start`:
      `found`, followed by the window's stripped text unless that is empty. */
  function FoundAfter(text: string, size: int, start: nat, found: seq<string>): seq<string>
    requires 0 < size && start < |text|
  {
    var chunk := Strip(text[start..WindowEnd(|text|, size, start)]);
    if |chunk| != 0 then found + [chunk] else found
  }

  /** The loop as tail recursion: the chunk list it ends with when it reaches
      offset `start` holding the chunks `found`. */
  function CollectFrom(text: string, size: int, overlap: int, start: nat, found: seq<string>): seq<string>
    requires ValidParams(size, overlap)
    decreases |text| - start
  {
    if start >= |text| then found
    else
      var end := WindowEnd(|text|, size, start);
      var chunk := Strip(text[start..end]);
      var found' := if |chunk| != 0 then found + [chunk] else found;
      if end == |text| then found' else CollectFrom(text, size, overlap, end - overlap, found')
  }

  /** The chunk list `split_into_chunks(text, size, overlap)` returns. */
  function Chunks(text: string, size: int, overlap: int): seq<string>
    requires ValidParams(size, overlap)
  {
    CollectFrom(text, size, overlap, 0, [])
  }

  /** One turn of the loop: the window starting at `start` adds its chunk,
      if any, and the loop stops or moves on to the next window. */
  lemma CollectStep(text: string, size: int, overlap: int, start: nat, found: seq<string>)
    requires ValidParams(size, overlap) && start < |text|
    ensures WindowEnd(|text|, size, start) == |text| ==>
      CollectFrom(text, size, overlap, start, found) == FoundAfter(text, size, start, found)
    ensures WindowEnd(|text|, size, start) < |text| ==>
      CollectFrom(text, size, overlap, start, found) ==
        CollectFrom(text, size, overlap, WindowEnd(|text|, size, start) - overlap, FoundAfter(text, size, start, found))
  {
  }

  /** The loop of `split_into_chunks`. */
  method SplitIntoChunks(text: string, size: int, overlap: int) returns (chunks: seq<string>)
    requires ValidParams(size, overlap)
    ensures chunks == Chunks(text, size, overlap)
  {
    ghost var all := Chunks(text, size, overlap);
    chunks := [];
    var start: nat := 0;
    var n := |text|;
    while start < n
      invariant CollectFrom(text, size, overlap, start, chunks) == all
      decreases n - start
    {
      var end := WindowEnd(n, size, start);
      var chunk := Strip(text[start..end]);
      ghost var before := chunks;
      CollectStep(text, size, overlap, start, chunks);
      if |chunk| != 0 {
        chunks := chunks + [chunk];
      }
      assert chunks == FoundAfter(text, size, start, before);
      if end == n {
        break;
      }
      start := end - overlap;
    }
  }

  /** The first window from `start` on, followed by the windows after it. */
  lemma WindowsFromStep(n: nat, size: int, overlap: int, start: nat)
    requires ValidParams(size, overlap) && start < n
    ensures var end := WindowEnd(n, size, start);
      WindowsFrom(n, size, overlap, start) ==
        [Window(start, end)] + if end == n then [] else WindowsFrom(n, size, overlap, end - overlap)
  {
    var end := WindowEnd(n, size, start);
    if end == n {
      assert [Window(start, end)] + [] == [Window(start, end)];
    }
  }

  /** Every window the loop examines lies within the text, after `start`,
      is not empty, and spans at most `size` characters. */
  lemma {:induction false} WindowsFromBounds(n: nat, size: int, overlap: int, start: nat)
    requires ValidParams(size, overlap)
    ensures forall k :: 0 <= k < |WindowsFrom(n, size, overlap, start)| ==>
      start <= WindowsFrom(n, size, overlap, start)[k].start < WindowsFrom(n, size, overlap, start)[k].end <= n &&
      WindowsFrom(n, size, overlap, start)[k].end - WindowsFrom(n, size, overlap, start)[k].start <= size
    decreases n - start
  {
    if start < n {
      var end := WindowEnd(n, size, start);
      WindowsFromStep(n, size, overlap, start);
      if end < n {
        var rest := WindowsFrom(n, size, overlap, end - overlap);
        var ws := [Window(start, end)] + rest;
        WindowsFromBounds(n, size, overlap, end - overlap);
        forall k | 0 < k < |ws|
          ensures start <= ws[k].start < ws[k].end <= n && ws[k].end - ws[k].start <= size
        {
          assert ws[k] == rest[k - 1];
        }
      }
    }
  }

  lemma CollectOfCons(text: string, w: Window, ws: seq<Window>, found: seq<string>)
    ensures CollectOf(text, [w] + ws, found) ==
      CollectOf(text, ws, if |WindowText(text, w)| != 0 then found + [WindowText(text, w)] else found)
  {
    assert ([w] + ws)[1..] == ws;
  }

  /** Collecting from the first window on, one window at a time. */
  lemma CollectOfStep(text: string, size: int, overlap: int, start: nat, found: seq<string>)
    requires ValidParams(size, overlap) && start < |text|
    ensures WindowEnd(|text|, size, start) == |text| ==>
      CollectOf(text, WindowsFrom(|text|, size, overlap, start), found) == FoundAfter(text, size, start, found)
    ensures WindowEnd(|text|, size, start) < |text| ==>
      CollectOf(text, WindowsFrom(|text|, size, overlap, start), found) ==
        CollectOf(text, WindowsFrom(|text|, size, overlap, WindowEnd(|text|, size, start) - overlap),
                  FoundAfter(text, size, start, found))
  {
    var end := WindowEnd(|text|, size, start);
    var w := Window(start, end);
    var later := if end == |text| then [] else WindowsFrom(|text|, size, overlap, end - overlap);
    WindowsFromStep(|text|, size, overlap, start);
    assert WindowText(text, w) == Strip(text[start..end]);
    CollectOfCons(text, w, later, found);
    assert CollectOf(text, [w] + later, found) == CollectOf(text, later, FoundAfter(text, size, start, found));
  }

  /** From offset `start` on, holding `found`, the loop ends with the chunks
      collected from the windows it has still to examine. */
  predicate CollectAgrees(text: string, size: int, overlap: int, start: nat, found: seq<string>)
    requires ValidParams(size, overlap)
  {
    CollectFrom(text, size, overlap, start, found) ==
      CollectOf(text, WindowsFrom(|text|, size, overlap, start), found)
  }

  /** When the loop agrees with the windows from the next window on, it
      agrees from `start` on. */
  lemma CollectAgreeStep(text: string, size: int, overlap: int, start: nat, found: seq<string>)
    requires ValidParams(size, overlap) && start < |text|
    requires WindowEnd(|text|, size, start) < |text| ==>
      CollectAgrees(text, size, overlap, WindowEnd(|text|, size, start) - overlap, FoundAfter(text, size, start, found))
    ensures CollectAgrees(text, size, overlap, start, found)
  {
    CollectStep(text, size, overlap, start, found);
    CollectOfStep(text, size, overlap, start, found);
  }

  /** The loop collects, window by window, the windows it examines. */
  lemma {:induction false} CollectFromWindows(text: string, size: int, overlap: int, start: nat, found: seq<string>)
    requires ValidParams(size, overlap)
    ensures CollectAgrees(text, size, overlap, start, found)
    decreases |text| - start
  {
    if start < |text| {
      if WindowEnd(|text|, size, start) < |text| {
        CollectFromWindows(text, size, overlap, WindowEnd(|text|, size, start) - overlap, FoundAfter(text, size, start, found));
      }
      CollectAgreeStep(text, size, overlap, start, found);
    }
  }

  /** Collecting appends the chunks of the windows to those already found. */
  lemma {:induction false} CollectOfChunks(text: string, ws: seq<Window>, found: seq<string>)
    ensures CollectOf(text, ws, found) == found + ChunksOf(text, ws)
  {
    if ws == [] {
      assert found + [] == found;
    } else {
      var piece := Piece(text, ws[0]);
      var rest := ChunksOf(text, ws[1..]);
      if piece == [] {
        assert found + piece == found;
      }
      CollectOfChunks(text, ws[1..], found + piece);
      AppendAssoc(found, piece, rest);
    }
  }

  /** The loop's chunks are those of the windows it examines, in order. */
  lemma ChunksFromWindows(text: string, size: int, overlap: int)
    requires ValidParams(size, overlap)
    ensures Chunks(text, size, overlap) == ChunksOf(text, Windows(|text|, size, overlap))
  {
    CollectFromWindows(text, size, overlap, 0, []);
    CollectOfChunks(text, Windows(|text|, size, overlap), []);
    assert [] + ChunksOf(text, Windows(|text|, size, overlap)) == ChunksOf(text, Windows(|text|, size, overlap));
  }

  /** Each chunk is the stripped text of one examined window: non-empty,
      already stripped, and at most `size` characters long. */
  lemma {:induction false} ChunksOfShape(text: string, ws: seq<Window>, size: int)
    requires forall k :: 0 <= k < |ws| ==> ws[k].end - ws[k].start <= size
    ensures forall c :: c in ChunksOf(text, ws) ==>
      exists k :: 0 <= k < |ws| && c == WindowText(text, ws[k])
    ensures forall c :: c in ChunksOf(text, ws) ==> c != [] && |c| <= size && c == Strip(c)
  {
    if ws != [] {
      ChunksOfShape(text, ws[1..], size);
      if ws[0].start <= ws[0].end <= |text| {
        var slice := text[ws[0].start..ws[0].end];
        StripIdempotent(slice);
        StripBlank(slice);
      }
      var head := Piece(text, ws[0]);
      var rest := ChunksOf(text, ws[1..]);
      forall c | c in rest
        ensures exists k :: 0 <= k < |ws| && c == WindowText(text, ws[k])
      {
        var k :| 0 <= k < |ws[1..]| && c == WindowText(text, ws[1..][k]);
        assert ws[1..][k] == ws[k + 1];
      }
      assert forall c :: c in head ==> c == WindowText(text, ws[0]);
    }
  }

  /** Every chunk is non-empty, already stripped, at most `size` characters
      long, and the stripped text of one of the windows the loop examines. */
  lemma ChunkShape(text: string, size: int, overlap: int)
    requires ValidParams(size, overlap)
    ensures forall c :: c in Chunks(text, size, overlap) ==> c != [] && |c| <= size && c == Strip(c)
    ensures forall c :: c in Chunks(text, size, overlap) ==>
      exists k :: 0 <= k < |Windows(|text|, size, overlap)| &&
        c == WindowText(text, Windows(|text|, size, overlap)[k])
  {
    ChunksFromWindows(text, size, overlap);
    WindowsFromBounds(|text|, size, overlap, 0);
    ChunksOfShape(text, Windows(|text|, size, overlap), size);
  }

  /** The windows from `start` on: none exactly when `start` is past the
      text, the first one starts at `start`, and with a non-negative overlap
      the last one ends at `n`. */
  lemma {:induction false} WindowsFromEnds(n: nat, size: int, overlap: int, start: nat)
    requires ValidParams(size, overlap)
    ensures WindowsFrom(n, size, overlap, start) == [] <==> start >= n
    ensures start < n ==> WindowsFrom(n, size, overlap, start)[0].start == start
    ensures start < n && 0 <= overlap ==>
      WindowsFrom(n, size, overlap, start)[|WindowsFrom(n, size, overlap, start)| - 1].end == n
    decreases n - start
  {
    if start < n {
      var end := WindowEnd(n, size, start);
      WindowsFromStep(n, size, overlap, start);
      if end < n {
        WindowsFromEnds(n, size, overlap, end - overlap);
        var rest := WindowsFrom(n, size, overlap, end - overlap);
        if rest != [] {
          assert ([Window(start, end)] + rest)[|rest|] == rest[|rest| - 1];
        }
      }
    }
  }

  /** Every window but the last is a full `size` characters, ends inside the
      text, and the next window starts `size - overlap` characters later. */
  lemma {:induction false} WindowsFromStride(n: nat, size: int, overlap: int, start: nat)
    requires ValidParams(size, overlap)
    ensures forall k :: 0 <= k < |WindowsFrom(n, size, overlap, start)| - 1 ==>
      WindowsFrom(n, size, overlap, start)[k].end == WindowsFrom(n, size, overlap, start)[k].start + size &&
      WindowsFrom(n, size, overlap, start)[k].end < n &&
      WindowsFrom(n, size, overlap, start)[k + 1].start == WindowsFrom(n, size, overlap, start)[k].start + (size - overlap)
    decreases n - start
  {
    if start < n {
      var end := WindowEnd(n, size, start);
      WindowsFromStep(n, size, overlap, start);
      if end < n {
        var rest := WindowsFrom(n, size, overlap, end - overlap);
        var ws := [Window(start, end)] + rest;
        WindowsFromStride(n, size, overlap, end - overlap);
        WindowsFromEnds(n, size, overlap, end - overlap);
        forall k | 0 <= k < |ws| - 1
          ensures ws[k].end == ws[k].start + size && ws[k].end < n &&
                  ws[k + 1].start == ws[k].start + (size - overlap)
        {
          if k > 0 {
            assert ws[k] == rest[k - 1] && ws[k + 1] == rest[k];
          }
        }
      }
    }
  }

  lemma WindowsShape(n: nat, size: int, overlap: int)
    requires ValidParams(size, overlap)
    ensures var ws := Windows(n, size, overlap);
      && (ws == [] <==> n == 0)
      && (ws != [] ==> ws[0].start == 0)
      && (ws != [] && 0 <= overlap ==> ws[|ws| - 1].end == n)
      && (forall k :: 0 <= k < |ws| - 1 ==>
            ws[k].end - ws[k].start == size && ws[k + 1].start == ws[k].start + (size - overlap))
  {
    WindowsFromEnds(n, size, overlap, 0);
    WindowsFromStride(n, size, overlap, 0);
  }

  /** Some window of `ws` contains position `i`. */
  predicate Covered(ws: seq<Window>, i: int) {
    exists k :: 0 <= k < |ws| && InWindow(ws[k], i)
  }

  /** With a non-negative overlap the windows cover every position of the
      text, and neighbouring windows share exactly `overlap` characters. */
  lemma {:induction false} WindowsFromCover(n: nat, size: int, overlap: int, start: nat, i: nat)
    requires ValidParams(size, overlap) && 0 <= overlap
    requires start <= i < n
    ensures Covered(WindowsFrom(n, size, overlap, start), i)
    decreases n - start
  {
    var ws := WindowsFrom(n, size, overlap, start);
    var end := WindowEnd(n, size, start);
    if i < end {
      assert InWindow(ws[0], i);
    } else {
      WindowsFromCover(n, size, overlap, end - overlap, i);
      var rest := WindowsFrom(n, size, overlap, end - overlap);
      var k :| 0 <= k < |rest| && InWindow(rest[k], i);
      assert ws[k + 1] == rest[k];
    }
  }

  lemma WindowsCover(n: nat, size: int, overlap: int)
    requires ValidParams(size, overlap) && 0 <= overlap
    ensures forall i :: 0 <= i < n ==> Covered(Windows(n, size, overlap), i)
    ensures var ws := Windows(n, size, overlap);
      forall k :: 0 <= k < |ws| - 1 ==> ws[k].end - ws[k + 1].start == overlap
  {
    forall i | 0 <= i < n
      ensures Covered(Windows(n, size, overlap), i)
    {
      WindowsFromCover(n, size, overlap, 0, i);
    }
    WindowsShape(n, size, overlap);
  }

  /** Every character of the window is whitespace. */
  predicate BlankWindow(text: string, w: Window)
    requires w.start <= w.end <= |text|
  {
    forall i :: w.start <= i < w.end ==> IsSpace(text[i])
  }

  lemma PieceEmptyIff(text: string, w: Window)
    requires w.start <= w.end <= |text|
    ensures Piece(text, w) == [] <==> BlankWindow(text, w)
  {
    var slice := text[w.start..w.end];
    StripBlank(slice);
    if Blank(slice) {
      forall i | w.start <= i < w.end ensures IsSpace(text[i]) {
        assert text[i] == slice[i - w.start];
      }
    } else {
      var j :| 0 <= j < |slice| && !IsSpace(slice[j]);
      assert text[w.start + j] == slice[j];
    }
  }

  /** Windows yield no chunk exactly when each of them is blank. */
  lemma {:induction false} ChunksOfEmptyIff(text: string, ws: seq<Window>)
    requires WindowsIn(text, ws)
    ensures ChunksOf(text, ws) == [] <==> forall k :: 0 <= k < |ws| ==> BlankWindow(text, ws[k])
  {
    if ws != [] {
      ChunksOfEmptyIff(text, ws[1..]);
      PieceEmptyIff(text, ws[0]);
      if forall k :: 0 <= k < |ws| - 1 ==> BlankWindow(text, ws[1..][k]) {
        forall k | 0 < k < |ws| ensures BlankWindow(text, ws[k]) {
          assert ws[k] == ws[1..][k - 1];
        }
      } else {
        var k :| 0 <= k < |ws| - 1 && !BlankWindow(text, ws[1..][k]);
        assert ws[k + 1] == ws[1..][k];
      }
    }
  }

  /** Empty or whitespace-only text yields no chunk. */
  lemma BlankTextNoChunks(text: string, size: int, overlap: int)
    requires ValidParams(size, overlap) && Blank(text)
    ensures Chunks(text, size, overlap) == []
  {
    var ws := Windows(|text|, size, overlap);
    WindowsFromBounds(|text|, size, overlap, 0);
    ChunksFromWindows(text, size, overlap);
    ChunksOfEmptyIff(text, ws);
    forall k | 0 <= k < |ws| ensures BlankWindow(text, ws[k]) {
    }
  }

  /** When the windows overlap (or touch), text holding a non-whitespace
      character yields at least one chunk. */
  lemma TextYieldsChunk(text: string, size: int, overlap: int)
    requires ValidParams(size, overlap) && 0 <= overlap && !Blank(text)
    ensures Chunks(text, size, overlap) != []
  {
    var ws := Windows(|text|, size, overlap);
    var i :| 0 <= i < |text| && !IsSpace(text[i]);
    WindowsFromCover(|text|, size, overlap, 0, i);
    var k :| 0 <= k < |ws| && InWindow(ws[k], i);
    WindowsFromBounds(|text|, size, overlap, 0);
    ChunksFromWindows(text, size, overlap);
    ChunksOfEmptyIff(text, ws);
    assert !BlankWindow(text, ws[k]);
  }
}
