/**
 * A file-like reader over an iterator of lines: data_access/classes/file_iterator.py.
 */
module FileIterator {

  /** The text the lines stand for: each ends with a newline. */
  function Joined(lines: seq<string>): string {
    if lines == [] then "" else lines[0] + "\n" + Joined(lines[1..])
  }

  /** What a reader holds: text already pulled but not handed out, and the lines still to come. */
  datatype Held = Held(buffer: string, lines: seq<string>) {
    function Rest(): string { buffer + Joined(lines) }
  }

  /** Pulls lines until `length` characters are held. */
  function Filled(h: Held, length: int): (r: Held)
    ensures r.Rest() == h.Rest()
    ensures |r.buffer| >= length || r.lines == []
    decreases |h.lines|
  {
    if |h.buffer| < length && h.lines != [] then
      assert h.buffer + (h.lines[0] + "\n" + Joined(h.lines[1..])) ==
        h.buffer + h.lines[0] + "\n" + Joined(h.lines[1..]);
      Filled(Held(h.buffer + h.lines[0] + "\n", h.lines[1..]), length)
    else h
  }

  /** `StringIO.read(length)`: how much of `size` characters it takes; a negative length takes all. */
  function Taken(size: nat, length: int): nat { if 0 <= length <= size then length else size }

  function ReadFrom(h: Held, length: int): (string, Held) {
    var f := Filled(h, length);
    var n := Taken(|f.buffer|, length);
    (f.buffer[..n], Held(f.buffer[n..], f.lines))
  }

  class IteratorFile {
    var it: seq<string>
    var f: string

    constructor (lines: seq<string>)
      ensures it == lines && f == ""
    {
      it, f := lines, "";
    }

    function Value(): Held
      reads this
    {
      Held(f, it)
    }

    method Read(length: int) returns (data: string)
      modifies this
      ensures (data, Value()) == ReadFrom(old(Value()), length)
      ensures data + Value().Rest() == old(Value()).Rest()
    {
      ghost var before := Value();
      while |f| < length && it != []
        invariant Filled(Value(), length) == Filled(before, length)
        decreases |it|
      {
        f := f + it[0] + "\n";
        it := it[1..];
      }
      var n := Taken(|f|, length);
      data := f[..n];
      var remainder := f[n..];
      assert data + remainder == f;
      assert data + (remainder + Joined(it)) == (data + remainder) + Joined(it);
      f := remainder;
    }
  }

  // ------------------------------------------------------- reading a whole sequence

  /** The results of reads of these lengths, and what is held afterwards. */
  function Reads(h: Held, lengths: seq<int>): (r: (seq<string>, Held))
    ensures |r.0| == |lengths|
    decreases |lengths|
  {
    if lengths == [] then ([], h)
    else
      var n := |lengths| - 1;
      var (results, mid) := Reads(h, lengths[..n]);
      var (data, end) := ReadFrom(mid, lengths[n]);
      (results + [data], end)
  }

  function Concat(parts: seq<string>): string {
    if parts == [] then "" else Concat(parts[..|parts| - 1]) + parts[|parts| - 1]
  }

  lemma OneReadConserves(h: Held, length: int)
    ensures ReadFrom(h, length).0 + ReadFrom(h, length).1.Rest() == h.Rest()
  {
  }

  /** Whatever the lengths: the results, the buffer and the unread lines are always the whole text. */
  lemma {:induction false} ReadsConserveTheText(h: Held, lengths: seq<int>)
    ensures Concat(Reads(h, lengths).0) + Reads(h, lengths).1.Rest() == h.Rest()
    decreases |lengths|
  {
    if lengths != [] {
      var n := |lengths| - 1;
      ReadsConserveTheText(h, lengths[..n]);
      var results, mid := Reads(h, lengths[..n]).0, Reads(h, lengths[..n]).1;
      var data, end := ReadFrom(mid, lengths[n]).0, ReadFrom(mid, lengths[n]).1;
      OneReadConserves(mid, lengths[n]);
      assert (results + [data])[..|results|] == results;
      assert (Concat(results) + data) + end.Rest() == Concat(results) + (data + end.Rest());
    }
  }

  function Least(a: int, b: int): int { if a < b then a else b }

  /** A non-negative length is answered like by a plain file: the next characters of the text, all of them if they
      last. */
  lemma ReadIsASliceOfTheText(h: Held, length: nat)
    ensures ReadFrom(h, length).0 == h.Rest()[..Least(length, |h.Rest()|)]
    ensures ReadFrom(h, length).1.Rest() == h.Rest()[Least(length, |h.Rest()|)..]
    ensures |ReadFrom(h, length).0| == length || ReadFrom(h, length).1 == Held("", [])
  {
  }

  /** How far the reads before have got. */
  function Offset(lengths: seq<nat>, size: nat): nat {
    if lengths == [] then 0 else Least(Offset(lengths[..|lengths| - 1], size) + lengths[|lengths| - 1], size)
  }

  lemma SliceOfRest(text: string, from: nat, length: nat)
    requires from <= |text|
    ensures var m := Least(length, |text| - from);
      text[from..][..m] == text[from..from + m] && text[from..][m..] == text[from + m..]
  {
  }

  /** One read from where the reads before have got to. */
  lemma ReadFromAnOffset(mid: Held, text: string, from: nat, length: nat)
    requires from <= |text| && mid.Rest() == text[from..]
    ensures var to := from + Least(length, |text| - from);
      ReadFrom(mid, length).0 == text[from..to] && ReadFrom(mid, length).1.Rest() == text[to..]
  {
    ReadIsASliceOfTheText(mid, length);
    SliceOfRest(text, from, length);
  }

  lemma OffsetUnfolds(lengths: seq<nat>, size: nat)
    requires lengths != [] && Offset(lengths[..|lengths| - 1], size) <= size
    ensures var before := Offset(lengths[..|lengths| - 1], size);
      Offset(lengths, size) == before + Least(lengths[|lengths| - 1], size - before)
  {
    var before, last := Offset(lengths[..|lengths| - 1], size), lengths[|lengths| - 1];
    assert Offset(lengths, size) == Least(before + last, size);
  }

  lemma {:induction false} ReadsReachTheirOffset(h: Held, lengths: seq<nat>)
    ensures Offset(lengths, |h.Rest()|) <= |h.Rest()|
    ensures Reads(h, lengths).1.Rest() == h.Rest()[Offset(lengths, |h.Rest()|)..]
    decreases |lengths|
  {
    if lengths != [] {
      var n, text := |lengths| - 1, h.Rest();
      ReadsReachTheirOffset(h, lengths[..n]);
      var mid, from := Reads(h, lengths[..n]).1, Offset(lengths[..n], |text|);
      ReadFromAnOffset(mid, text, from, lengths[n]);
      OffsetUnfolds(lengths, |text|);
    }
  }

  /** So the last of any reads of non-negative lengths is a slice of the text, wherever the lines end. */
  lemma ReadsAreThoseOfAPlainFile(h: Held, lengths: seq<nat>, length: nat)
    ensures
      var text := h.Rest();
      var from, to := Offset(lengths, |text|), Offset(lengths + [length], |text|);
      0 <= from <= to <= |text| && Reads(h, lengths + [length]).0 == Reads(h, lengths).0 + [text[from..to]]
  {
    var text, mid := h.Rest(), Reads(h, lengths).1;
    ReadsSnoc(h, lengths, length);
    ReadsReachTheirOffset(h, lengths);
    ReadFromAnOffset(mid, text, Offset(lengths, |text|), length);
    assert (lengths + [length])[..|lengths|] == lengths;
    OffsetUnfolds(lengths + [length], |text|);
  }

  lemma ReadsSnoc(h: Held, lengths: seq<int>, length: int)
    ensures Reads(h, lengths + [length]).0 == Reads(h, lengths).0 + [ReadFrom(Reads(h, lengths).1, length).0]
  {
    assert (lengths + [length])[..|lengths|] == lengths;
  }

  /** A negative length is not "everything": it is what was pulled before, and pulls nothing. */
  lemma NegativeLengthIsOnlyTheBuffer(h: Held, length: int)
    requires length < 0
    ensures ReadFrom(h, length) == (h.buffer, Held("", h.lines))
    ensures ReadFrom(h, length).0 == h.Rest() <==> h.lines == []
  {
    assert h.lines != [] ==> |Joined(h.lines)| > 0;
    assert h.buffer[..|h.buffer|] == h.buffer && h.buffer[|h.buffer|..] == "";
  }
}
