/** `CircularHistoryBuffer` (circular_history_buffer.cpp): a ring of bytes read through absolute cursors, as a window
    on an append-only history. */
module HistoryRing {
  function Min(a: int, b: int): int {
    if a <= b then a else b
  }

  function Max(a: int, b: int): int {
    if a >= b then a else b
  }

  // What a write keeps of its data.
  function Cut(data: string, size: nat): (r: string)
    ensures |r| == Min(|data|, size)
  {
    if |data| > size then data[|data| - size..] else data
  }

  // The oldest byte still held, as an absolute position.
  function Oldest(written: nat, size: nat): nat {
    Max(written - size, 0)
  }

  // Positions less than a lap apart have different slots, and the slots wrap around once.
  lemma SlotAhead(t: nat, i: nat, size: nat)
    requires i < size
    ensures (t + i) % size == if t % size + i < size then t % size + i else t % size + i - size
  {
    var q, r := t / size, t % size;
    assert t == q * size + r;
    if r + i < size {
      SlotOf(q, r + i, size);
    } else {
      assert t + i == (q + 1) * size + (r + i - size);
      SlotOf(q + 1, r + i - size, size);
    }
  }

  lemma SlotOf(q: nat, r: nat, size: nat)
    requires r < size
    ensures (q * size + r) % size == r
  {
    var n := q * size + r;
    var d := n / size - q;
    assert d * size == n / size * size - q * size;
    NonzeroMultiple(d, size);
  }

  lemma NonzeroMultiple(d: int, size: nat)
    ensures d > 0 ==> d * size >= size
    ensures d < 0 ==> d * size <= 0 - size
  {
    var e: nat := if d > 0 then d - 1 else if d < 0 then -d - 1 else 0;
    assert e * size >= 0;
    assert d > 0 ==> d * size == e * size + size;
    assert d < 0 ==> d * size == -(e * size) - size;
  }

  lemma OtherSlot(k: nat, t: nat, i: nat, size: nat)
    requires i < size && k < t && t + i < k + size
    ensures k % size != (t + i) % size
  {
    SlotAhead(k, t + i - k, size);
  }

  // The slots hold the newest bytes of the history, as many as there are slots.
  predicate Window(slots: seq<char>, history: string, size: nat)
    requires size > 0 && |slots| == size
  {
    forall k :: Oldest(|history|, size) <= k < |history| ==> slots[k % size] == history[k]
  }

  // Where a write of `data` at `offset` leaves slot `j`.
  function Overwritten(j: nat, offset: nat, data: string, size: nat, was: char): char
    requires j < size && |data| <= size && offset < size
  {
    if offset <= j < offset + |data| then data[j - offset]
    else if j < offset + |data| - size then data[j + size - offset]
    else was
  }

  lemma WindowMoves(was: seq<char>, slots: seq<char>, history: string, data: string, size: nat)
    requires 0 < size == |was| == |slots| && |data| <= size && Window(was, history, size)
    requires forall j :: 0 <= j < size ==> slots[j] == Overwritten(j, |history| % size, data, size, was[j])
    ensures Window(slots, history + data, size)
  {
    var t, h := |history|, history + data;
    forall k | Oldest(|h|, size) <= k < |h| ensures slots[k % size] == h[k] {
      if k >= t {
        SlotAhead(t, k - t, size);
      } else {
        Untouched(k, t, |data|, size);
      }
    }
  }

  // `n` slots from `offset` on, around the end.
  function Around(slots: seq<char>, offset: nat, n: nat): (r: string)
    requires offset < |slots| && n <= |slots|
    ensures |r| == n
  {
    if offset + n <= |slots| then slots[offset..offset + n] else slots[offset..] + slots[..offset + n - |slots|]
  }

  lemma WindowSlice(slots: seq<char>, history: string, size: nat, start: nat, n: nat)
    requires 0 < size == |slots| && Window(slots, history, size)
    requires Oldest(|history|, size) <= start && start + n <= |history|
    ensures n <= size && start % size < size && history[start..start + n] == Around(slots, start % size, n)
  {
    var slice := history[start..start + n];
    forall i | 0 <= i < n ensures slice[i] == Around(slots, start % size, n)[i] {
      SlotAhead(start, i, size);
      assert slots[(start + i) % size] == history[start + i];
    }
  }

  class CircularHistoryBuffer {
    const size: nat
    const buffer: array<char>
    var totalWritten: nat
    ghost var history: string

    ghost predicate Valid()
      reads this, buffer
    {
      size > 0 && buffer.Length == size && |history| == totalWritten && Window(buffer[..], history, size)
    }

    constructor (size: nat)
      requires size > 0
      ensures Valid() && fresh(buffer) && this.size == size && history == ""
    {
      this.size := size;
      buffer := new char[size](i => '\0');
      totalWritten, history := 0, "";
    }

    // `memcpy`
    method CopyIn(at: nat, data: string)
      requires at + |data| <= buffer.Length
      modifies buffer
      ensures forall j :: 0 <= j < buffer.Length ==>
        buffer[j] == if at <= j < at + |data| then data[j - at] else old(buffer[j])
    {
      forall j | 0 <= j < |data| {
        buffer[at + j] := data[j];
      }
    }

    method Write(data: string)
      requires Valid()
      modifies this, buffer
      ensures Valid() && history == old(history) + Cut(data, size)
      ensures |data| <= size ==> history == old(history) + data
      ensures |data| > size ==>
        && |history| == |old(history)| + size && old(history) <= history
        && history[|history| - size..] == data[|data| - size..]
    {
      var kept := data;
      if |kept| > size {
        kept := kept[|kept| - size..];
      }
      var offset := totalWritten % size;
      var spaceUntilWrap := size - offset;
      if |kept| <= spaceUntilWrap {
        CopyIn(offset, kept);
      } else {
        CopyIn(offset, kept[..spaceUntilWrap]);
        CopyIn(0, kept[spaceUntilWrap..]);
      }
      WindowMoves(old(buffer[..]), buffer[..], history, kept, size);
      totalWritten := totalWritten + |kept|;
      history := history + kept;
    }

    method CopyOut(out: array<char>, at: nat, from: nat, n: nat)
      requires at + n <= out.Length && from + n <= buffer.Length && out != buffer
      modifies out
      ensures forall j :: 0 <= j < out.Length ==>
        out[j] == if at <= j < at + n then buffer[from + j - at] else old(out[j])
    {
      forall j | 0 <= j < n {
        out[at + j] := buffer[from + j];
      }
    }

    method ReadSlots(start: nat, out: array<char>, n: nat)
      requires Valid() && n <= out.Length && out != buffer
      requires Oldest(totalWritten, size) <= start && start + n <= totalWritten
      modifies out
      ensures out[..n] == history[start..start + n] && out[n..] == old(out[n..])
    {
      hide Window;
      WindowSlice(buffer[..], history, size, start, n);
      var offset := start % size;
      var spaceUntilWrap := size - offset;
      if n <= spaceUntilWrap {
        CopyOut(out, 0, offset, n);
      } else {
        CopyOut(out, 0, offset, spaceUntilWrap);
        CopyOut(out, spaceUntilWrap, 0, n - spaceUntilWrap);
      }
      assert out[..n] == Around(buffer[..], offset, n);
    }

    // `cursor` is the caller's, moved past what it has been given.
    method ReadNext(cursor: nat, out: array<char>, maxLen: nat) returns (n: nat, next: nat)
      requires Valid() && cursor <= totalWritten && maxLen <= out.Length && out != buffer
      modifies out
      ensures var p := ReadAt(history, size, cursor, maxLen);
        n == |p.text| && next == p.start + n && out[..n] == p.text
      ensures out[n..] == old(out[n..])
      ensures n == 0 <==> maxLen == 0 || cursor == totalWritten
      ensures n == maxLen || next == totalWritten
    {
      hide Window;
      next := cursor;
      if next == 0 && totalWritten > 0 {
        next := if totalWritten > size then totalWritten - size else 0;
      }
      if totalWritten > size && next < totalWritten - size {
        next := totalWritten - size;
      }
      var available := totalWritten - next;
      n := if available < maxLen then available else maxLen;
      assert out[..0] == "";
      if n > 0 {
        ReadSlots(next, out, n);
        next := next + n;
      }
    }
  }

  // A position from before a write that is still held has not been written over.
  lemma Untouched(k: nat, t: nat, len: nat, size: nat)
    requires size > 0 && len <= size && Oldest(t + len, size) <= k < t
    ensures var off := t % size;
      var s := k % size;
      s < size && !(off <= s < off + len) && !(s < off + len - size)
  {
    var off, s := t % size, k % size;
    if off <= s < off + len {
      SlotAhead(t, s - off, size);
      OtherSlot(k, t, s - off, size);
    } else if s < off + len - size {
      SlotAhead(t, s + size - off, size);
      OtherSlot(k, t, s + size - off, size);
    }
  }

  // ---- runs

  // One read: where its bytes begin, the bytes, and how much had been written by then.
  datatype Piece = Piece(start: nat, text: string, written: nat)

  function ReadAt(history: string, size: nat, cursor: nat, maxLen: nat): (p: Piece)
    requires cursor <= |history|
  {
    var start := Max(cursor, Oldest(|history|, size));
    var n := Min(|history| - start, maxLen);
    Piece(start, history[start..start + n], |history|)
  }

  datatype Act = Written(data: string) | Read(reader: nat, maxLen: nat)

  predicate CursorsWithin(cursors: seq<nat>, history: string) {
    forall i :: 0 <= i < |cursors| ==> cursors[i] <= |history|
  }

  function HistoryAfter(history: string, size: nat, acts: seq<Act>): (h: string)
    ensures history <= h
    decreases |acts|
  {
    if acts == [] then history
    else if acts[0].Written? then HistoryAfter(history + Cut(acts[0].data, size), size, acts[1..])
    else HistoryAfter(history, size, acts[1..])
  }

  // What reader `r` is given in the course of a run of writes and of reads by any readers.
  function Pieces(history: string, size: nat, cursors: seq<nat>, acts: seq<Act>, r: nat): seq<Piece>
    requires r < |cursors| && CursorsWithin(cursors, history)
    decreases |acts|
  {
    if acts == [] then []
    else
      match acts[0]
      case Written(data) => Pieces(history + Cut(data, size), size, cursors, acts[1..], r)
      case Read(who, maxLen) =>
        if who >= |cursors| then Pieces(history, size, cursors, acts[1..], r)
        else
          var p := ReadAt(history, size, cursors[who], maxLen);
          var rest := Pieces(history, size, cursors[who := p.start + |p.text|], acts[1..], r);
          if who == r then [p] + rest else rest
  }

  // From `from` on, bytes come in order, each at most once; a byte is left out only if it had been overwritten
  // when the read that skips it was made.
  predicate InOrder(pieces: seq<Piece>, size: nat, from: nat) {
    pieces == [] ||
    (var p := pieces[0];
     && from <= p.start
     && (p.start > from ==> p.start + size == p.written)
     && InOrder(pieces[1..], size, p.start + |p.text|))
  }

  predicate IsSlice(p: Piece, history: string) {
    p.start + |p.text| <= p.written <= |history| && p.text == history[p.start..p.start + |p.text|]
  }

  predicate AreSlices(pieces: seq<Piece>, history: string) {
    pieces == [] || (IsSlice(pieces[0], history) && AreSlices(pieces[1..], history))
  }

  lemma ReadIsSlice(history: string, size: nat, cursor: nat, maxLen: nat, later: string)
    requires cursor <= |history| && history <= later
    ensures var p := ReadAt(history, size, cursor, maxLen);
      && IsSlice(p, later) && cursor <= p.start && p.start + |p.text| <= |history|
      && (p.start > cursor ==> p.start + size == p.written)
  {
    var p := ReadAt(history, size, cursor, maxLen);
    assert history[p.start..p.start + |p.text|] == later[p.start..p.start + |p.text|];
  }

  // A read with room is given nothing only at the end of the history, and stops short of its room only there. What is
  // skipped is what has been overwritten.
  lemma ReadsOn(history: string, size: nat, cursor: nat, maxLen: nat)
    requires size > 0 && cursor <= |history|
    ensures var p := ReadAt(history, size, cursor, maxLen);
      && (p.text == "" <==> maxLen == 0 || cursor == |history|)
      && (|p.text| == maxLen || p.start + |p.text| == |history|)
      && p.start == if |history| > size && cursor < |history| - size then |history| - size else cursor
  {}

  // A reader that reads until it is given nothing.
  function ReadOut(history: string, size: nat, cursor: nat, maxLen: nat): seq<Piece>
    requires cursor <= |history| && maxLen > 0
    decreases |history| - cursor
  {
    var p := ReadAt(history, size, cursor, maxLen);
    if p.text == "" then [] else [p] + ReadOut(history, size, p.start + |p.text|, maxLen)
  }

  // It is given all of the history that is held from its cursor on.
  lemma {:induction false} ReadOutIsAll(history: string, size: nat, cursor: nat, maxLen: nat)
    requires size > 0 && cursor <= |history| && maxLen > 0
    ensures Joined(ReadOut(history, size, cursor, maxLen))
      == history[if |history| > size && cursor < |history| - size then |history| - size else cursor..]
    decreases |history| - cursor
  {
    hide ReadAt;
    ReadsOn(history, size, cursor, maxLen);
    ReadIsSlice(history, size, cursor, maxLen, history);
    var p := ReadAt(history, size, cursor, maxLen);
    if p.text != "" {
      var next := p.start + |p.text|;
      ReadOutIsAll(history, size, next, maxLen);
      var rest := ReadOut(history, size, next, maxLen);
      assert ([p] + rest)[1..] == rest;
      assert history[p.start..] == history[p.start..next] + history[next..];
    }
  }

  // ---- what is held of all that was ever written

  // All that the writes of a run were given, uncut.
  function AllWritten(all: string, acts: seq<Act>): string
    decreases |acts|
  {
    if acts == [] then all
    else AllWritten(if acts[0].Written? then all + acts[0].data else all, acts[1..])
  }

  // Both texts end in the same `n` characters.
  predicate SameEnd(a: string, b: string, n: nat) {
    n <= |a| && n <= |b| && a[|a| - n..] == b[|b| - n..]
  }

  predicate HoldsEnd(history: string, all: string, size: nat) {
    if |all| <= size then history == all else SameEnd(history, all, size)
  }

  lemma CutKeepsEnd(data: string, size: nat)
    ensures HoldsEnd(Cut(data, size), data, size)
  {}

  // However they were cut, the writes of any run leave in the ring the newest bytes of all their data, as many as it
  // holds.
  lemma {:induction false} HoldsTheNewest(history: string, all: string, size: nat, acts: seq<Act>)
    requires HoldsEnd(history, all, size)
    ensures HoldsEnd(HistoryAfter(history, size, acts), AllWritten(all, acts), size)
    decreases |acts|
  {
    hide HoldsEnd, Cut;
    if acts != [] {
      if acts[0].Written? {
        CutKeepsEnd(acts[0].data, size);
        EndGrows(history, all, Cut(acts[0].data, size), acts[0].data, size);
        HoldsTheNewest(history + Cut(acts[0].data, size), all + acts[0].data, size, acts[1..]);
      } else {
        HoldsTheNewest(history, all, size, acts[1..]);
      }
    }
  }

  lemma EndOfSum(a: string, b: string, n: nat)
    requires n <= |a + b|
    ensures n <= |b| ==> (a + b)[|a + b| - n..] == b[|b| - n..]
    ensures n >= |b| ==> (a + b)[|a + b| - n..] == a[|a| - (n - |b|)..] + b
  {}

  lemma ShorterEnd(a: string, n: nat, m: nat)
    requires m <= n <= |a|
    ensures a[|a| - m..] == a[|a| - n..][n - m..]
  {}

  lemma EndGrows(h: string, all: string, cut: string, data: string, size: nat)
    requires HoldsEnd(h, all, size) && HoldsEnd(cut, data, size)
    ensures HoldsEnd(h + cut, all + data, size)
  {
    if |data| > size {
      EndOfSum(h, cut, size);
      EndOfSum(all, data, size);
    } else if |all| > size {
      EndOfSum(h, data, size);
      EndOfSum(all, data, size);
      ShorterEnd(h, size, size - |data|);
      ShorterEnd(all, size, size - |data|);
    }
  }

  // In every run of writes and of reads by any number of readers, each reader is given slices of the history.
  lemma {:induction false} ReadersSeeHistory(history: string, size: nat, cursors: seq<nat>, acts: seq<Act>, r: nat)
    requires r < |cursors| && CursorsWithin(cursors, history)
    ensures var pieces := Pieces(history, size, cursors, acts, r);
      InOrder(pieces, size, cursors[r]) && AreSlices(pieces, HistoryAfter(history, size, acts))
    decreases |acts|
  {
    if acts != [] {
      match acts[0]
      case Written(data) => ReadersSeeHistory(history + Cut(data, size), size, cursors, acts[1..], r);
      case Read(who, maxLen) =>
        if who >= |cursors| {
          ReadersSeeHistory(history, size, cursors, acts[1..], r);
        } else {
          var p := ReadAt(history, size, cursors[who], maxLen);
          ReadIsSlice(history, size, cursors[who], maxLen, HistoryAfter(history, size, acts[1..]));
          var moved := cursors[who := p.start + |p.text|];
          ReadersSeeHistory(history, size, moved, acts[1..], r);
          var rest := Pieces(history, size, moved, acts[1..], r);
          assert ([p] + rest)[1..] == rest;
        }
    }
  }

  // ---- a reader that is never a lap behind misses nothing

  function Joined(pieces: seq<Piece>): string {
    if pieces == [] then "" else pieces[0].text + Joined(pieces[1..])
  }

  predicate KeepsUp(pieces: seq<Piece>, size: nat, from: nat) {
    pieces == [] ||
    (pieces[0].written <= from + size && KeepsUp(pieces[1..], size, pieces[0].start + |pieces[0].text|))
  }

  lemma {:induction false} NothingMissed(pieces: seq<Piece>, history: string, size: nat, from: nat)
    requires InOrder(pieces, size, from) && AreSlices(pieces, history) && from <= |history|
    requires KeepsUp(pieces, size, from)
    ensures from + |Joined(pieces)| <= |history| && Joined(pieces) == history[from..from + |Joined(pieces)|]
  {
    if pieces != [] {
      var p := pieces[0];
      assert p.start == from;
      NothingMissed(pieces[1..], history, size, from + |p.text|);
    }
  }
}
