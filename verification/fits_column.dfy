/** `ffpcluj`: writing `unsigned long` values into a table column (or the
    virtual image column of a primary array). The values are cut into chunks
    that fit both the conversion buffer and the remainder of the current row's
    vector; each chunk is converted to the column type and becomes one write
    command at a byte position computed from the row and element reached. */
module FitsColumn {
  import opened FitsConvert

  const NumOverflow: int := 412
  const BadAtableFormat: int := 311
  const BadBtableFormat: int := 312

  /** The column's data type code. `TString(numeric)` is an ASCII-table column
      whose display format is numeric (`numeric`) or `%s`; `TOther` stands for
      every type the writer cannot produce from integers. */
  datatype ColumnType =
    | TByte | TShort | TLong | TLongLong | TFloat | TDouble
    | TString(numeric: bool)
    | TOther(code: int)

  /** What `ffgcprll` reports about the target: column type, whether the HDU is
      an ASCII table, the vector length `repeat`, the buffer capacity
      `maxelem`, the 0-based starting element, and the byte geometry. */
  datatype Layout = Layout(
    tcode: ColumnType, asciiTable: bool, repeat: int, maxelem: int, elemnum: int,
    startpos: int, rowlen: int, incre: int)

  /** The outcome of `ffgcprll`: a layout, or an error status. */
  datatype Prepared = Ready(layout: Layout) | PrepFailed(status: int)

  /** What `ffgcprll` guarantees of a layout it hands back. */
  predicate Sane(lay: Layout) {
    0 <= lay.elemnum < lay.repeat && lay.maxelem >= 1
  }

  /** One converted chunk: it starts at byte `wrtptr`, covers input values
      `next .. next+count-1`, and lands at 0-based element `elem` of row
      `row` (relative to the first row). */
  datatype Chunk = Chunk(wrtptr: int, next: nat, count: nat, row: nat, elem: nat, data: seq<int>)

  datatype ColumnWrite = ColumnWrite(chunks: seq<Chunk>, status: int)

  function Min(a: int, b: int): int {
    if a < b then a else b
  }

  /** Column types the `switch` accepts. */
  predicate Writable(t: ColumnType) {
    !t.TOther? && !(t.TString? && !t.numeric)
  }

  /** The error for a type the `switch` rejects depends on the table kind. */
  function BadFormat(asciiTable: bool): int {
    if asciiTable then BadAtableFormat else BadBtableFormat
  }

  /** Types whose unscaled conversion saturates, and their maximum. */
  predicate Saturating(t: ColumnType) {
    t.TByte? || t.TShort? || t.TLong?
  }

  function Limit(t: ColumnType): nat
    requires Saturating(t)
  {
    match t
    case TByte => UCharMax
    case TShort => ShrtMax
    case TLong => Int32Max
  }

  /** Does value x overflow column type t? */
  predicate Exceeds(t: ColumnType, x: ULong) {
    Saturating(t) && x > Limit(t)
  }

  /** Does some value of s overflow column type t? */
  predicate AnyExceeds(t: ColumnType, s: seq<ULong>) {
    exists i :: 0 <= i < |s| && Exceeds(t, s[i])
  }

  /** The stored value for x in a column of type t. Floating and text columns
      are given the integer itself: their rounding and formatting are not part
      of this model. */
  function Stored(t: ColumnType, x: ULong): int {
    if Saturating(t) then Clamp(x, Limit(t))
    else if t.TLongLong? then AsLongLong(x)
    else x
  }

  /** The `switch` on the column type: convert one chunk. */
  method ConvertChunk(t: ColumnType, input: seq<ULong>, status: int) returns (output: seq<int>, st: int)
    requires Writable(t)
    ensures |output| == |input|
    ensures forall i :: 0 <= i < |input| ==> output[i] == Stored(t, input[i])
    ensures st == if AnyExceeds(t, input) then OverflowErr else status
  {
    match t {
      case TLong =>
        output, st := ToInt32(input, status);
      case TLongLong =>
        output, st := ToLongLong(input, status);
      case TByte =>
        output, st := ToUChar(input, status);
      case TShort =>
        output, st := ToShort(input, status);
      case _ =>
        output, st := input, status;
    }
  }

  /** The final rewrite: an overflow during conversion is reported as
      NUM_OVERFLOW; every other status is passed on. */
  function Settled(status: int): (r: int)
    ensures status == OverflowErr ==> r == NumOverflow
    ensures status != OverflowErr ==> r == status
  {
    if status == OverflowErr then NumOverflow else status
  }

  /** Chunk c is the one the loop cuts at its input position: it holds the
      largest count that fits the remaining input, the buffer and the rest of
      the row's vector; its (row, element) is its input position counted from
      the starting element; its byte position follows from both. */
  ghost predicate ChunkAt(lay: Layout, values: seq<ULong>, c: Chunk) {
    && c.next < |values|
    && c.elem < lay.repeat
    && c.count == Min(Min(|values| - c.next, lay.maxelem), lay.repeat - c.elem)
    && c.row * lay.repeat + c.elem == lay.elemnum + c.next
    && c.wrtptr == lay.startpos + c.row * lay.rowlen + c.elem * lay.incre
  }

  /** Chunk c carries the converted values of its slice of the input. */
  ghost predicate Carries(lay: Layout, values: seq<ULong>, c: Chunk) {
    && c.next + c.count <= |values|
    && |c.data| == c.count
    && forall j :: 0 <= j < c.count ==> c.data[j] == Stored(lay.tcode, values[c.next + j])
  }

  /** The position after chunk c is (row, elem) at input position next: the
      input continues where c stopped, and a row completed by c moves on to
      element 0 of the following row. */
  ghost predicate Follows(lay: Layout, c: Chunk, next: int, row: int, elem: int) {
    && next == c.next + c.count
    && if c.elem + c.count == lay.repeat then row == c.row + 1 && elem == 0
       else row == c.row && elem == c.elem + c.count
  }

  /** The chunks cover the input from the first value to the last, in order. */
  ghost predicate Tiles(lay: Layout, values: seq<ULong>, chunks: seq<Chunk>) {
    && (|chunks| == 0 <==> |values| == 0)
    && (|chunks| > 0 ==>
          chunks[0].next == 0 && chunks[0].row == 0 && chunks[0].elem == lay.elemnum &&
          chunks[|chunks| - 1].next + chunks[|chunks| - 1].count == |values|)
    && (forall k :: 0 <= k < |chunks| ==> ChunkAt(lay, values, chunks[k]))
    && (forall k :: 0 <= k < |chunks| ==> Carries(lay, values, chunks[k]))
    && (forall k :: 0 < k < |chunks| ==>
          Follows(lay, chunks[k - 1], chunks[k].next, chunks[k].row, chunks[k].elem))
  }

  /** `ffpcluj` with the I/O replaced by the list of write commands. */
  method WriteColumn(status: int, prep: Prepared, values: seq<ULong>) returns (w: ColumnWrite)
    requires prep.PrepFailed? ==> prep.status > 0
    requires prep.Ready? && |values| > 0 ==> Sane(prep.layout)
    ensures status > 0 ==> w == ColumnWrite([], status)
    ensures status <= 0 && prep.PrepFailed? ==> w == ColumnWrite([], prep.status)
    ensures status <= 0 && prep.Ready? && |values| > 0 && !Writable(prep.layout.tcode) ==>
      w == ColumnWrite([], BadFormat(prep.layout.asciiTable))
    ensures status <= 0 && prep.Ready? && (|values| == 0 || Writable(prep.layout.tcode)) ==>
      Tiles(prep.layout, values, w.chunks) &&
      w.status == Settled(if AnyExceeds(prep.layout.tcode, values) then OverflowErr else status)
  {
    if status > 0 {
      return ColumnWrite([], status);
    }
    if prep.PrepFailed? {
      return ColumnWrite([], prep.status);
    }
    var lay := prep.layout;
    var chunks, st := Chunks(lay, values, status);
    if chunks.None? {
      return ColumnWrite([], BadFormat(lay.asciiTable));
    }
    w := ColumnWrite(chunks.value, Settled(st));
  }

  datatype Option<T> = None | Some(value: T)

  /** One pass of the loop body: cut the chunk at input position `next`, at
      element `elemnum` of relative row `rownum`, and convert it. */
  method NextChunk(lay: Layout, values: seq<ULong>, remain: nat, next: nat, rownum: nat, elemnum: nat, st: int)
    returns (c: Chunk, st': int)
    requires Sane(lay) && Writable(lay.tcode)
    requires 0 < remain && next == |values| - remain
    requires elemnum < lay.repeat && rownum * lay.repeat + elemnum == lay.elemnum + next
    ensures ChunkAt(lay, values, c) && Carries(lay, values, c)
    ensures c.next == next && c.row == rownum && c.elem == elemnum
    ensures st' == if AnyExceeds(lay.tcode, values[next..next + c.count]) then OverflowErr else st
  {
    var ntodo := Min(remain, lay.maxelem);
    ntodo := Min(ntodo, lay.repeat - elemnum);
    var wrtptr := lay.startpos + rownum * lay.rowlen + elemnum * lay.incre;
    var data;
    data, st' := ConvertChunk(lay.tcode, values[next..next + ntodo], st);
    c := Chunk(wrtptr, next, ntodo, rownum, elemnum, data);
  }

  /** The loop's invariant over the chunks cut so far, `remain` values being
      left. */
  ghost predicate Cut(lay: Layout, values: seq<ULong>, done: seq<Chunk>, remain: nat) {
    && remain <= |values|
    && (|done| == 0 ==> remain == |values|)
    && (|done| > 0 ==>
          done[0].next == 0 && done[0].row == 0 && done[0].elem == lay.elemnum &&
          done[|done| - 1].next + done[|done| - 1].count == |values| - remain)
    && (forall k :: 0 <= k < |done| ==> ChunkAt(lay, values, done[k]))
    && (forall k :: 0 <= k < |done| ==> Carries(lay, values, done[k]))
    && (forall k :: 0 < k < |done| ==>
          Follows(lay, done[k - 1], done[k].next, done[k].row, done[k].elem))
  }

  /** The main loop of `ffpcluj`. `None` when the column type is rejected at
      the first chunk. Statuses stay at or below zero, because the writes
      themselves are taken to succeed, so the loop's test for a fatal status
      never fires and is left out. */
  method Chunks(lay: Layout, values: seq<ULong>, status: int) returns (chunks: Option<seq<Chunk>>, st: int)
    requires |values| > 0 ==> Sane(lay)
    ensures chunks.None? <==> |values| > 0 && !Writable(lay.tcode)
    ensures chunks.Some? ==> Tiles(lay, values, chunks.value)
    ensures chunks.Some? ==> st == if AnyExceeds(lay.tcode, values) then OverflowErr else status
  {
    var remain: nat := |values|;
    var next: nat := 0;
    var rownum: nat := 0;
    var elemnum: int := lay.elemnum;
    st := status;
    var done: seq<Chunk> := [];
    while remain != 0
      invariant Cut(lay, values, done, remain)
      invariant remain != 0 ==> Cursor(lay, values, done, remain, next, rownum, elemnum)
      invariant |done| > 0 ==> Writable(lay.tcode)
      invariant st == if AnyExceeds(lay.tcode, values[..|values| - remain]) then OverflowErr else status
      decreases remain
    {
      if !Writable(lay.tcode) {
        return None, st;
      }
      var c, st' := NextChunk(lay, values, remain, next, rownum, elemnum, st);
      ConvertedPrefix(lay.tcode, values, next, c.count, st, st', status);
      st := st';
      done := Extend(lay, values, done, remain, c);
      remain := remain - c.count;
      if remain != 0 {
        var p := Resume(lay, values, c);
        next, rownum, elemnum := p.0, p.1, p.2;
      }
    }
    assert values[..|values|] == values;
    return Some(done), st;
  }

  /** The loop's position while input remains: input position `next` at
      element `elemnum` of relative row `rownum`, right after the last chunk
      cut, or at the starting element before the first one. */
  ghost predicate Cursor(lay: Layout, values: seq<ULong>, done: seq<Chunk>, remain: nat, next: int, rownum: int, elemnum: int) {
    && next == |values| - remain
    && 0 <= rownum && 0 <= elemnum < lay.repeat
    && rownum * lay.repeat + elemnum == lay.elemnum + next
    && (|done| == 0 ==> rownum == 0 && elemnum == lay.elemnum)
    && (|done| > 0 ==> Follows(lay, done[|done| - 1], next, rownum, elemnum))
  }

  /** Where the loop goes on after chunk c: the element after it, on the
      next row when c filled its row. */
  function Resume(lay: Layout, values: seq<ULong>, c: Chunk): (p: (nat, nat, nat))
    requires ChunkAt(lay, values, c)
    ensures Follows(lay, c, p.0, p.1, p.2)
    ensures p.2 < lay.repeat && p.1 * lay.repeat + p.2 == lay.elemnum + p.0
  {
    if c.elem + c.count == lay.repeat then
      NextRow(c.row, lay.repeat);
      (c.next + c.count, c.row + 1, 0)
    else
      (c.next + c.count, c.row, c.elem + c.count)
  }

  lemma NextRow(row: int, repeat: int)
    ensures (row + 1) * repeat == row * repeat + repeat
  {
  }

  /** Appending the chunk cut at the current position keeps the invariant. */
  function Extend(lay: Layout, values: seq<ULong>, done: seq<Chunk>, remain: nat, c: Chunk): (r: seq<Chunk>)
    requires Cut(lay, values, done, remain) && 0 < remain
    requires ChunkAt(lay, values, c) && Carries(lay, values, c)
    requires c.next == |values| - remain
    requires |done| == 0 ==> c.row == 0 && c.elem == lay.elemnum
    requires |done| > 0 ==> Follows(lay, done[|done| - 1], c.next, c.row, c.elem)
    ensures r == done + [c]
    ensures Cut(lay, values, r, remain - c.count)
  {
    done + [c]
  }

  /** The overflow status after converting one more chunk describes the longer
      prefix. */
  lemma ConvertedPrefix(t: ColumnType, values: seq<ULong>, next: nat, ntodo: nat, st: int, st': int, status: int)
    requires next + ntodo <= |values|
    requires st == if AnyExceeds(t, values[..next]) then OverflowErr else status
    requires st' == if AnyExceeds(t, values[next..next + ntodo]) then OverflowErr else st
    ensures st' == if AnyExceeds(t, values[..next + ntodo]) then OverflowErr else status
  {
    var a, b, ab := values[..next], values[next..next + ntodo], values[..next + ntodo];
    assert forall i :: 0 <= i < next ==> ab[i] == a[i];
    assert forall i :: next <= i < next + ntodo ==> ab[i] == b[i - next];
    if AnyExceeds(t, ab) {
      var i :| 0 <= i < |ab| && Exceeds(t, ab[i]);
      if i < next { assert Exceeds(t, a[i]); } else { assert Exceeds(t, b[i - next]); }
    }
  }

  /** Sum of the chunk sizes. */
  function Total(chunks: seq<Chunk>): nat {
    if |chunks| == 0 then 0 else Total(chunks[..|chunks| - 1]) + chunks[|chunks| - 1].count
  }

  /** Every chunk starts where the chunks before it end. */
  lemma {:induction false} TotalBefore(lay: Layout, values: seq<ULong>, chunks: seq<Chunk>, k: nat)
    requires Tiles(lay, values, chunks) && k < |chunks|
    ensures Total(chunks[..k]) == chunks[k].next
  {
    if k > 0 {
      TotalBefore(lay, values, chunks, k - 1);
      assert chunks[..k][..k - 1] == chunks[..k - 1];
      assert Follows(lay, chunks[k - 1], chunks[k].next, chunks[k].row, chunks[k].elem);
    }
  }

  /** The chunk sizes add up to the number of values written. */
  lemma ChunksCover(lay: Layout, values: seq<ULong>, chunks: seq<Chunk>)
    requires Tiles(lay, values, chunks)
    ensures Total(chunks) == |values|
  {
    if |chunks| > 0 {
      var k := |chunks| - 1;
      TotalBefore(lay, values, chunks, k);
      assert chunks[..k + 1] == chunks;
    }
  }

  /** No chunk is empty, exceeds the buffer, or runs past the end of a row's
      vector; a chunk ends a row exactly when the next one starts a new row. */
  lemma ChunkBounds(lay: Layout, values: seq<ULong>, chunks: seq<Chunk>, k: nat)
    requires Sane(lay) && Tiles(lay, values, chunks) && k < |chunks|
    ensures 1 <= chunks[k].count <= lay.maxelem
    ensures chunks[k].elem + chunks[k].count <= lay.repeat
    ensures k + 1 < |chunks| ==>
      (chunks[k + 1].elem == 0 <==> chunks[k].elem + chunks[k].count == lay.repeat)
  {
    assert ChunkAt(lay, values, chunks[k]);
    if k + 1 < |chunks| {
      assert Follows(lay, chunks[k], chunks[k + 1].next, chunks[k + 1].row, chunks[k + 1].elem);
    }
  }
}
