/** The PNG reader and writer of the icon pipeline (packaging/windows/assets.py). Filtering is that of section 6 of
    RFC 2083; zlib and the checksum are parameters. */
module Png {
  import opened Wrappers
  import opened ByteStrings

  const BPP := 4  // bytes per pixel
  const SIGNATURE: Bytes := [0x89, 0x50, 0x4E, 0x47, 0x0D, 0x0A, 0x1A, 0x0A]
  const IHDR: Bytes := [73, 72, 68, 82]
  const IDAT: Bytes := [73, 68, 65, 84]
  const IEND: Bytes := [73, 69, 78, 68]
  const WORD := 0x1_0000_0000

  // ---- prediction ----

  function Abs(n: int): nat {
    if n < 0 then -n else n
  }

  /** `_paeth_predictor`: of left, up and upper left the one nearest to left + up - upper left; of equally near ones the
      first. */
  function Paeth(a: Byte, b: Byte, c: Byte): (r: Byte)
    ensures var p := a + b - c;
            && r in [a, b, c]
            && Abs(p - r) <= Abs(p - a) && Abs(p - r) <= Abs(p - b) && Abs(p - r) <= Abs(p - c)
            && (Abs(p - a) == Abs(p - r) ==> r == a)
            && (Abs(p - b) == Abs(p - r) ==> r == a || r == b)
  {
    var p := a + b - c;
    var pa, pb, pc := Abs(p - a), Abs(p - b), Abs(p - c);
    if pa <= pb && pa <= pc then a else if pb <= pc then b else c
  }

  /** What filter `ft` predicts for byte `i` of a row of which at least the bytes before that are known. */
  function Predict(ft: Byte, row: Bytes, prev: Bytes, i: nat): Byte
    requires i <= |row| && i < |prev|
  {
    var left: Byte := if i >= BPP then row[i - BPP] else 0;
    var up := prev[i];
    var upLeft: Byte := if i >= BPP then prev[i - BPP] else 0;
    match ft
    case 1 => left
    case 2 => up
    case 3 => (left + up) / 2
    case 4 => Paeth(left, up, upLeft)
    case _ => 0
  }

  /** The first `n` bytes that a filtered scanline stands for. */
  function Recon(ft: Byte, scan: Bytes, prev: Bytes, n: nat): (r: Bytes)
    requires n <= |scan| && n <= |prev|
    ensures |r| == n
  {
    if n == 0 then []
    else
      var r := Recon(ft, scan, prev, n - 1);
      r + [(scan[n - 1] + Predict(ft, r, prev, n - 1)) % 256]
  }

  /** A row, filtered (RFC 2083, section 6). */
  function Filtered(ft: Byte, row: Bytes, prev: Bytes): (r: Bytes)
    requires |row| == |prev|
    ensures |r| == |row|
  {
    seq(|row|, i requires 0 <= i < |row| => (row[i] - Predict(ft, row, prev, i)) % 256)
  }

  /** Reconstruction inverts filtering, for every filter type. */
  lemma {:induction false} ReconFiltered(ft: Byte, row: Bytes, prev: Bytes, n: nat)
    requires |row| == |prev| && n <= |row|
    ensures Recon(ft, Filtered(ft, row, prev), prev, n) == row[..n]
  {
    if n > 0 {
      ReconFiltered(ft, row, prev, n - 1);
      assert Predict(ft, row[..n - 1], prev, n - 1) == Predict(ft, row, prev, n - 1);
      AddBack(row[n - 1], Predict(ft, row, prev, n - 1));
    }
  }

  lemma AddBack(x: Byte, p: Byte)
    ensures ((x - p) % 256 + p) % 256 == x
  {}

  /** The five filters of RFC 2083: a byte plus nothing, the byte to the left, the one above, the mean of both rounded
      down, or the Paeth predictor of these and the one above to the left. */
  function Defiltered(ft: Byte, x: Byte, left: Byte, up: Byte, corner: Byte): int {
    if ft == 1 then (x + left) % 256
    else if ft == 2 then (x + up) % 256
    else if ft == 3 then (x + (left + up) / 2) % 256
    else if ft == 4 then (x + Paeth(left, up, corner)) % 256
    else x
  }

  /** Every byte of the row is what its filter makes of it; what lies outside the image is 0. */
  lemma {:induction false} ReconAt(ft: Byte, scan: Bytes, prev: Bytes, n: nat, i: nat)
    requires i < n <= |scan| && n <= |prev|
    ensures var row := Recon(ft, scan, prev, n);
            row[i]
              == Defiltered(ft, scan[i], if i < 4 then 0 else row[i - 4], prev[i], if i < 4 then 0 else prev[i - 4])
  {
    if i < n - 1 {
      ReconAt(ft, scan, prev, n - 1, i);
    } else {
      ReconLast(ft, scan, prev, n);
    }
  }

  lemma ReconLast(ft: Byte, scan: Bytes, prev: Bytes, n: nat)
    requires 0 < n <= |scan| && n <= |prev|
    ensures var row := Recon(ft, scan, prev, n - 1);
            Recon(ft, scan, prev, n)[n - 1]
            == Defiltered(ft, scan[n - 1], if n < 5 then 0 else row[n - 5], prev[n - 1],
                          if n < 5 then 0 else prev[n - 5])
  {}

  // ---- one scanline, in place ----

  /** The row for a scanline, which may be cut short at the end of the data; None for the IndexError of a filter that
      reaches for a missing byte. */
  function Row(ft: Byte, scan: Bytes, prev: Bytes): Option<Bytes>
    requires |scan| <= |prev|
  {
    if |scan| == |prev| then Some(Recon(ft, scan, prev, |prev|))
    else if 2 <= ft <= 4 || (ft == 1 && |prev| > BPP) then None
    else Some(scan)
  }

  /** The filter changes the byte there: Sub leaves the first pixel alone, and an unknown filter all. */
  predicate Changes(ft: Byte, i: nat) {
    2 <= ft <= 4 || (ft == 1 && i >= 4)
  }

  /** A scanline that is cut short is an IndexError exactly if its filter would change a byte that is missing, and is
      taken as it is otherwise. */
  lemma CutRowExactly(ft: Byte, scan: Bytes, prev: Bytes)
    requires |scan| < |prev|
    ensures Row(ft, scan, prev) == None <==> exists i :: |scan| <= i < |prev| && Changes(ft, i)
    ensures Row(ft, scan, prev).Some? ==> Row(ft, scan, prev).value == scan
  {
    if Row(ft, scan, prev) == None {
      assert Changes(ft, |prev| - 1);
    }
  }

  lemma {:induction false} SubStart(scan: Bytes, prev: Bytes, n: nat)
    requires n <= BPP && n <= |scan| && n <= |prev|
    ensures Recon(1, scan, prev, n) == scan[..n]
  {
    if n > 0 {
      SubStart(scan, prev, n - 1);
      assert scan[n - 1] % 256 == scan[n - 1];
    }
  }

  lemma {:induction false} NoFilter(ft: Byte, scan: Bytes, prev: Bytes, n: nat)
    requires n <= |scan| && n <= |prev| && !(1 <= ft <= 4)
    ensures Recon(ft, scan, prev, n) == scan[..n]
  {
    if n > 0 {
      NoFilter(ft, scan, prev, n - 1);
      assert scan[n - 1] % 256 == scan[n - 1];
    }
  }

  /** `a` holds the first `i` reconstructed bytes, then the scanline as it was. */
  ghost predicate DoneUpTo(ft: Byte, a: array<Byte>, scan: Bytes, prev: Bytes, i: nat)
    requires |scan| == a.Length <= |prev| && i <= a.Length
    reads a
  {
    a[..i] == Recon(ft, scan, prev, i) && forall k :: i <= k < a.Length ==> a[k] == scan[k]
  }

  method DefilterSub(a: array<Byte>, prev: Bytes) returns (ok: bool)
    requires a.Length <= |prev|
    modifies a
    ensures ok == Row(1, old(a[..]), prev).Some? && (ok ==> a[..] == Row(1, old(a[..]), prev).value)
  {
    ghost var scan := a[..];
    if a.Length >= BPP {
      SubStart(scan, prev, BPP);
    } else {
      SubStart(scan, prev, a.Length);
    }
    var i := BPP;
    while i < |prev|
      invariant i >= BPP
      invariant if a.Length <= BPP then i == BPP && a[..] == scan else i <= a.Length && DoneUpTo(1, a, scan, prev, i)
      decreases |prev| - i
    {
      if i >= a.Length {
        return false;
      }
      var sum: int := a[i] as int + a[i - BPP] as int;
      a[i] := sum % 256;
      i := i + 1;
    }
    return true;
  }

  method DefilterUp(a: array<Byte>, prev: Bytes) returns (ok: bool)
    requires a.Length <= |prev|
    modifies a
    ensures ok == Row(2, old(a[..]), prev).Some? && (ok ==> a[..] == Row(2, old(a[..]), prev).value)
  {
    ghost var scan := a[..];
    var i := 0;
    while i < |prev|
      invariant i <= a.Length && DoneUpTo(2, a, scan, prev, i)
      decreases |prev| - i
    {
      if i >= a.Length {
        return false;
      }
      var sum: int := a[i] as int + prev[i] as int;
      a[i] := sum % 256;
      i := i + 1;
    }
    return true;
  }

  method DefilterAverage(a: array<Byte>, prev: Bytes) returns (ok: bool)
    requires a.Length <= |prev|
    modifies a
    ensures ok == Row(3, old(a[..]), prev).Some? && (ok ==> a[..] == Row(3, old(a[..]), prev).value)
  {
    ghost var scan := a[..];
    var i := 0;
    while i < |prev|
      invariant i <= a.Length && DoneUpTo(3, a, scan, prev, i)
      decreases |prev| - i
    {
      if i >= a.Length {
        return false;
      }
      var left: int := if i >= BPP then a[i - BPP] else 0;
      var up: int := prev[i];
      var sum: int := a[i] as int + (left + up) / 2;
      a[i] := sum % 256;
      i := i + 1;
    }
    return true;
  }

  method DefilterPaeth(a: array<Byte>, prev: Bytes) returns (ok: bool)
    requires a.Length <= |prev|
    modifies a
    ensures ok == Row(4, old(a[..]), prev).Some? && (ok ==> a[..] == Row(4, old(a[..]), prev).value)
  {
    ghost var scan := a[..];
    var i := 0;
    while i < |prev|
      invariant i <= a.Length && DoneUpTo(4, a, scan, prev, i)
      decreases |prev| - i
    {
      if i >= a.Length {
        return false;
      }
      var left: Byte := if i >= BPP then a[i - BPP] else 0;
      var up := prev[i];
      var upLeft: Byte := if i >= BPP then prev[i - BPP] else 0;
      var sum: int := a[i] as int + Paeth(left, up, upLeft) as int;
      a[i] := sum % 256;
      i := i + 1;
    }
    return true;
  }

  /** The filter loops of `decode_png_rgba`, in place on the scanline. */
  method Defilter(ft: Byte, a: array<Byte>, prev: Bytes) returns (ok: bool)
    requires a.Length <= |prev|
    modifies a
    ensures ok == Row(ft, old(a[..]), prev).Some? && (ok ==> a[..] == Row(ft, old(a[..]), prev).value)
  {
    ok := true;
    match ft
    case 1 => ok := DefilterSub(a, prev);
    case 2 => ok := DefilterUp(a, prev);
    case 3 => ok := DefilterAverage(a, prev);
    case 4 => ok := DefilterPaeth(a, prev);
    case _ => NoFilter(ft, a[..], prev, a.Length);
  }

  // ---- all scanlines ----

  /** Python's slice, which stops at the end. */
  function Slice(s: Bytes, from: nat, to: nat): Bytes
    requires from <= to
  {
    if to <= |s| then s[from..to] else if from <= |s| then s[from..] else []
  }

  /** What there is between the two places. */
  lemma SliceExactly(s: Bytes, from: nat, to: nat)
    requires from <= to
    ensures var r := Slice(s, from, to);
            && |r| == (if |s| <= from then 0 else if |s| <= to then |s| - from else to - from)
            && forall i :: 0 <= i < |r| ==> r[i] == s[from + i]
  {}

  /** The next `n` rows of the data from `offset` on; None for an IndexError. */
  function Rows(raw: Bytes, offset: nat, n: nat, prev: Bytes): Option<seq<Bytes>>
    decreases n
  {
    if n == 0 then Some([])
    else if offset >= |raw| then None
    else
      match Row(raw[offset], Slice(raw, offset + 1, offset + 1 + |prev|), prev)
      case None => None
      case Some(row) =>
        if |row| < |prev| then (if n == 1 then Some([row]) else None)
        else Prepend([row], Rows(raw, offset + 1 + |prev|, n - 1, row))
  }

  /** The row above row `y`. */
  function Above(rows: seq<Bytes>, stride: nat): Bytes {
    if rows == [] then Zeros(stride) else rows[|rows| - 1]
  }

  /** A result with these rows in front. */
  function Prepend(rows: seq<Bytes>, r: Option<seq<Bytes>>): Option<seq<Bytes>> {
    match r case None => None case Some(more) => Some(rows + more)
  }

  /** What the rows read so far and the data left say about the result, `goal`. */
  ghost predicate ReadSoFar(
      goal: Option<seq<Bytes>>, raw: Bytes, stride: nat, height: nat, rows: seq<Bytes>, offset: nat)
    requires |rows| <= height
  {
    var above := Above(rows, stride);
    && |above| <= stride
    && (if |above| == stride then goal == Prepend(rows, Rows(raw, offset, height - |rows|, above))
        else offset >= |raw| && goal == if |rows| == height then Some(rows) else None)
  }

  lemma PrependTwice(a: seq<Bytes>, b: seq<Bytes>, r: Option<seq<Bytes>>)
    ensures Prepend(a, Prepend(b, r)) == Prepend(a + b, r)
  {
    if r.Some? {
      assert a + (b + r.value) == a + b + r.value;
    }
  }

  lemma ReadOneMore(
      goal: Option<seq<Bytes>>, raw: Bytes, stride: nat, height: nat, rows: seq<Bytes>, offset: nat, row: Bytes)
    requires |rows| < height && offset < |raw| && ReadSoFar(goal, raw, stride, height, rows, offset)
    requires Row(raw[offset], Slice(raw, offset + 1, offset + 1 + stride), Above(rows, stride)) == Some(row)
    ensures ReadSoFar(goal, raw, stride, height, rows + [row], offset + 1 + stride)
  {
    var above, left := Above(rows, stride), height - |rows|;
    assert Above(rows + [row], stride) == row && |rows + [row]| == |rows| + 1;
    RowsNext(raw, offset, left, above, row);
    if |row| == stride {
      PrependTwice(rows, [row], Rows(raw, offset + 1 + stride, left - 1, row));
    }
  }

  lemma RowsNext(raw: Bytes, offset: nat, n: nat, prev: Bytes, row: Bytes)
    requires n > 0 && offset < |raw| && Row(raw[offset], Slice(raw, offset + 1, offset + 1 + |prev|), prev) == Some(row)
    ensures Rows(raw, offset, n, prev)
            == if |row| == |prev| then Prepend([row], Rows(raw, offset + 1 + |prev|, n - 1, row))
               else if n == 1 then Some([row]) else None
    ensures |row| <= |prev| && (|row| < |prev| ==> offset + 1 + |prev| > |raw|)
  {}

  lemma ReadNoMore(
      goal: Option<seq<Bytes>>, raw: Bytes, stride: nat, height: nat, rows: seq<Bytes>, offset: nat)
    requires |rows| < height && ReadSoFar(goal, raw, stride, height, rows, offset)
    requires offset >= |raw|
             || Row(raw[offset], Slice(raw, offset + 1, offset + 1 + stride), Above(rows, stride)) == None
    ensures goal == None
  {}

  lemma ReadStart(raw: Bytes, stride: nat, height: nat)
    ensures ReadSoFar(Rows(raw, 0, height, Zeros(stride)), raw, stride, height, [], 0)
  {
    var goal := Rows(raw, 0, height, Zeros(stride));
    assert goal.Some? ==> [] + goal.value == goal.value;
  }

  lemma ReadAll(
      goal: Option<seq<Bytes>>, raw: Bytes, stride: nat, height: nat, rows: seq<Bytes>, offset: nat)
    requires |rows| == height && ReadSoFar(goal, raw, stride, height, rows, offset)
    ensures goal == Some(rows)
  {
    assert rows + [] == rows;
  }

  /** One round of the loop over the scanlines. */
  method ReadRow(
      ghost goal: Option<seq<Bytes>>, raw: Bytes, stride: nat, ghost height: nat, rows: seq<Bytes>, offset: nat)
    returns (row: Option<Bytes>)
    requires |rows| < height && ReadSoFar(goal, raw, stride, height, rows, offset)
    ensures row.None? ==> goal == None
    ensures row.Some? ==> ReadSoFar(goal, raw, stride, height, rows + [row.value], offset + 1 + stride)
  {
    if offset >= |raw| {
      ReadNoMore(goal, raw, stride, height, rows, offset);
      return None;
    }
    var prev := Above(rows, stride);
    var scan := Slice(raw, offset + 1, offset + 1 + stride);
    var a := new Byte[|scan|](i requires 0 <= i < |scan| => scan[i]);
    assert a[..] == scan;
    var ok := Defilter(raw[offset], a, prev);
    if !ok {
      ReadNoMore(goal, raw, stride, height, rows, offset);
      return None;
    }
    ReadOneMore(goal, raw, stride, height, rows, offset, a[..]);
    return Some(a[..]);
  }

  /** The loop over the scanlines; None for an IndexError. */
  method ReadRows(raw: Bytes, stride: nat, height: nat) returns (r: Option<seq<Bytes>>)
    ensures r == Rows(raw, 0, height, Zeros(stride))
  {
    var rows: seq<Bytes> := [];
    var offset: nat := 0;
    ghost var goal := Rows(raw, 0, height, Zeros(stride));
    ReadStart(raw, stride, height);
    for y := 0 to height
      invariant y == |rows| && ReadSoFar(goal, raw, stride, height, rows, offset)
    {
      var row := ReadRow(goal, raw, stride, height, rows, offset);
      if row.None? {
        return None;
      }
      offset, rows := offset + 1 + stride, rows + [row.value];
    }
    ReadAll(goal, raw, stride, height, rows, offset);
    return Some(rows);
  }

  // ---- chunks ----

  datatype PngError = BadSignature | StructError | Unsupported | ZlibError | IndexError

  /** What the chunks read so far say: width, height and the data of the IDAT chunks. */
  datatype Header = Header(width: nat, height: nat, idat: seq<Bytes>)

  const NO_HEADER := Header(0, 0, [])

  /** `struct.unpack(">I", ...)` */
  function Word(s: Bytes, pos: nat): nat
    requires pos + 4 <= |s|
  {
    ((s[pos] as int * 256 + s[pos + 1]) * 256 + s[pos + 2]) * 256 + s[pos + 3]
  }

  /** `tag == name`, for a name of four bytes */
  predicate Names(tag: Bytes, name: Bytes)
    requires |name| == 4
  {
    |tag| == 4 && tag[0] == name[0] && tag[1] == name[1] && tag[2] == name[2] && tag[3] == name[3]
  }

  /** What reading a chunk leads to: the end, or what is known before the chunk at `next`. */
  datatype Step = Stop(result: Result<Header, PngError>) | Go(next: nat, header: Header)

  /** What one chunk does. */
  function ReadChunk(tag: Bytes, data: Bytes, next: nat, h: Header): (r: Step)
    ensures r.Go? ==> r.next == next
  {
    if Names(tag, IHDR) then
      if |data| != 13 then Stop(Failure(StructError))
      else if data[8] != 8 || data[9] != 6 then Stop(Failure(Unsupported))
      else Go(next, h.(width := Word(data, 0), height := Word(data, 4)))
    else if Names(tag, IDAT) then Go(next, h.(idat := h.idat + [data]))
    else if Names(tag, IEND) then Stop(Success(h))
    else Go(next, h)
  }

  /** What the chunk at `pos` does. */
  function StepAt(png: Bytes, pos: nat, h: Header): (r: Step)
    ensures r.Go? ==> r.next > pos
  {
    if pos + 4 > |png| then Stop(Failure(StructError))
    else
      var length := Word(png, pos);
      ReadChunk(Slice(png, pos + 4, pos + 8), Slice(png, pos + 8, pos + 8 + length), pos + 12 + length, h)
  }

  /** The chunks from `pos` on. */
  function Scan(png: Bytes, pos: nat, h: Header): Result<Header, PngError>
    decreases |png| - pos
  {
    if pos >= |png| then Success(h)
    else
      match StepAt(png, pos, h)
      case Stop(r) => r
      case Go(next, h') => Scan(png, next, h')
  }

  /** One round of the loop over the chunks. */
  method ReadStep(png: Bytes, pos: nat, h: Header) returns (step: Step)
    ensures step == StepAt(png, pos, h)
  {
    if pos + 4 > |png| {
      return Stop(Failure(StructError));
    }
    var length := Word(png, pos);
    var tag, data := Slice(png, pos + 4, pos + 8), Slice(png, pos + 8, pos + 8 + length);
    var next := pos + 12 + length;
    if Names(tag, IHDR) {
      if |data| != 13 {
        return Stop(Failure(StructError));
      }
      if data[8] != 8 || data[9] != 6 {
        return Stop(Failure(Unsupported));
      }
      return Go(next, h.(width := Word(data, 0), height := Word(data, 4)));
    }
    if Names(tag, IDAT) {
      return Go(next, h.(idat := h.idat + [data]));
    }
    if Names(tag, IEND) {
      return Stop(Success(h));
    }
    return Go(next, h);
  }

  /** The loop over the chunks. */
  method ScanChunks(png: Bytes, start: nat) returns (r: Result<Header, PngError>)
    ensures r == Scan(png, start, NO_HEADER)
  {
    var pos, h := start, NO_HEADER;
    while pos < |png|
      invariant Scan(png, pos, h) == Scan(png, start, NO_HEADER)
      decreases |png| - pos
    {
      var step := ReadStep(png, pos, h);
      if step.Stop? {
        return step.result;
      }
      pos, h := step.next, step.header;
    }
    return Success(h);
  }

  // ---- images ----

  datatype Image = Image(width: nat, height: nat, rows: seq<Bytes>)
  {
    ghost predicate Valid() {
      |rows| == height && forall y :: 0 <= y < height ==> |rows[y]| == BPP * width
    }
  }

  /** zlib: `decompress` fails on anything that is not a compressed stream. */
  datatype Zlib = Zlib(compress: Bytes -> Bytes, decompress: Bytes -> Option<Bytes>, crc32: Bytes -> nat)
  {
    ghost predicate Valid() {
      forall s {:trigger compress(s)} :: decompress(compress(s)) == Some(s)
    }
  }

  function Decode(z: Zlib, png: Bytes): Result<Image, PngError> {
    if Slice(png, 0, 8) != SIGNATURE then Failure(BadSignature)
    else
      match Scan(png, 8, NO_HEADER)
      case Failure(e) => Failure(e)
      case Success(h) =>
        match z.decompress(Concat(h.idat))
        case None => Failure(ZlibError)
        case Some(raw) =>
          match Rows(raw, 0, h.height, Zeros(BPP * h.width))
          case None => Failure(IndexError)
          case Some(rows) => Success(Image(h.width, h.height, rows))
  }

  method DecodePngRgba(z: Zlib, png: Bytes) returns (r: Result<Image, PngError>)
    ensures r == Decode(z, png)
  {
    if Slice(png, 0, 8) != SIGNATURE {
      return Failure(BadSignature);
    }
    var h := ScanChunks(png, 8);
    if h.Failure? {
      return Failure(h.error);
    }
    var raw := z.decompress(Concat(h.value.idat));
    if raw.None? {
      return Failure(ZlibError);
    }
    var rows := ReadRows(raw.value, BPP * h.value.width, h.value.height);
    if rows.None? {
      return Failure(IndexError);
    }
    return Success(Image(h.value.width, h.value.height, rows.value));
  }

  /** A chunk on disk. */
  function ChunkBytes(z: Zlib, tag: Bytes, data: Bytes): Bytes {
    BigEndian(|data|, 4) + tag + data + BigEndian(z.crc32(tag + data), 4)
  }

  function HeaderData(width: nat, height: nat): Bytes {
    BigEndian(width, 4) + BigEndian(height, 4) + [8, 6, 0, 0, 0]
  }

  /** Length, tag, data and, over tag and data, the checksum; numbers with the most significant byte first. */
  lemma ChunkLayout(z: Zlib, tag: Bytes, data: Bytes)
    requires |tag| == 4 && |data| < WORD && z.crc32(tag + data) < WORD
    ensures var c := ChunkBytes(z, tag, data);
            && |c| == 12 + |data| && Word(c, 0) == |data| && c[4..8] == tag && c[8..8 + |data|] == data
            && Word(c, 8 + |data|) == z.crc32(tag + data)
  {
    var c, n, crc := ChunkBytes(z, tag, data), BigEndian(|data|, 4), BigEndian(z.crc32(tag + data), 4);
    assert c[0..4] == n && c[8 + |data|..12 + |data|] == crc;
    WordOfBigEndian(c, 0, |data|);
    WordOfBigEndian(c, 8 + |data|, z.crc32(tag + data));
  }

  /** Width, height, eight bits a sample, red green blue and alpha, and the standard compression, filters and order. */
  lemma HeaderLayout(width: nat, height: nat)
    requires width < WORD && height < WORD
    ensures var h := HeaderData(width, height);
            |h| == 13 && Word(h, 0) == width && Word(h, 4) == height && h[8..] == [8, 6, 0, 0, 0]
  {
    var h := HeaderData(width, height);
    assert h[0..4] == BigEndian(width, 4) && h[4..8] == BigEndian(height, 4);
    WordOfBigEndian(h, 0, width);
    WordOfBigEndian(h, 4, height);
  }

  /** The names of the chunks, and the eight bytes with which a file starts. */
  lemma NamesAreAscii()
    ensures IHDR == Ascii("IHDR") && IDAT == Ascii("IDAT") && IEND == Ascii("IEND")
    ensures SIGNATURE == [137] + Ascii("PNG") + [13, 10, 26, 10]
  {}

  /** The scanlines, each behind a filter byte 0. */
  function Unfiltered(rows: seq<Bytes>): Bytes {
    if rows == [] then [] else [0] + rows[0] + Unfiltered(rows[1..])
  }

  /** `encode_png_rgba`; None for the struct.error of a number that does not fit. */
  function Encode(z: Zlib, img: Image): Option<Bytes> {
    var compressed := z.compress(Unfiltered(img.rows));
    if img.width >= WORD || img.height >= WORD || |compressed| >= WORD then None
    else Some(SIGNATURE + ChunkBytes(z, IHDR, HeaderData(img.width, img.height)) + ChunkBytes(z, IDAT, compressed)
              + ChunkBytes(z, IEND, []))
  }

  /** The first thing wrong, exactly: the first eight bytes, the chunks, the compressed data, or too little of it. */
  lemma RefusedExactly(z: Zlib, png: Bytes)
    ensures var r, h, signed := Decode(z, png), Scan(png, 8, NO_HEADER), SIGNATURE <= png;
            && (r == Failure(BadSignature) <==> !signed)
            && (forall e :: e in {StructError, Unsupported} ==> (r == Failure(e) <==> signed && h == Failure(e)))
            && (r == Failure(ZlibError) <==> signed && h.Success? && z.decompress(Concat(h.value.idat)).None?)
            && (r == Failure(IndexError) <==>
                  && signed && h.Success? && z.decompress(Concat(h.value.idat)).Some?
                  && Rows(z.decompress(Concat(h.value.idat)).value, 0, h.value.height, Zeros(4 * h.value.width))
                     == None)
  {
    ScanErrors(png, 8, NO_HEADER);
    if SIGNATURE <= png {
      assert Slice(png, 0, 8) == SIGNATURE;
    }
  }

  lemma {:induction false} ScanErrors(png: Bytes, pos: nat, h: Header)
    ensures var r := Scan(png, pos, h); r.Failure? ==> r.error in {StructError, Unsupported}
    decreases |png| - pos
  {
    if pos < |png| {
      match StepAt(png, pos, h)
      case Stop(_) =>
      case Go(next, h') => ScanErrors(png, next, h');
    }
  }

  lemma HeaderAccepted(data: Bytes, next: nat, h: Header)
    ensures var r := ReadChunk(IHDR, data, next, h);
            && (r.Go? <==> |data| == 13 && data[8] == 8 && data[9] == 6)
            && (r.Go? ==> r.header == h.(width := Word(data, 0), height := Word(data, 4)))
            && (r.Stop? ==> r.result == Failure(if |data| == 13 then Unsupported else StructError))
  {}

  // ---- reading back what was written, however it is filtered and cut into chunks ----

  /** An image's data, row `y` filtered with type `fts[y]`. */
  function FilteredData(fts: seq<Byte>, rows: seq<Bytes>, prev: Bytes): Bytes
    requires |fts| == |rows| && forall y :: 0 <= y < |rows| ==> |rows[y]| == |prev|
    decreases rows
  {
    if rows == [] then [] else [fts[0]] + Filtered(fts[0], rows[0], prev) + FilteredData(fts[1..], rows[1..], rows[0])
  }

  /** The first of the rows that follow some data. */
  lemma FirstRow(raw: Bytes, front: Bytes, ft: Byte, row: Bytes, prev: Bytes, rest: Bytes)
    requires |row| == |prev| && raw == front + ([ft] + Filtered(ft, row, prev) + rest)
    ensures |front| < |raw| && raw[|front|] == ft
    ensures Row(ft, Slice(raw, |front| + 1, |front| + 1 + |prev|), prev) == Some(row)
  {
    var scan := Filtered(ft, row, prev);
    assert Slice(raw, |front| + 1, |front| + 1 + |prev|) == scan;
    ReconFiltered(ft, row, prev, |prev|);
    assert row[..|prev|] == row;
  }

  /** The rows are read if the first is and then the others. */
  lemma FirstAndOthers(raw: Bytes, offset: nat, rows: seq<Bytes>, prev: Bytes, next: nat)
    requires rows != [] && offset < |raw| && |rows[0]| == |prev| && next == offset + 1 + |prev|
    requires Row(raw[offset], Slice(raw, offset + 1, next), prev) == Some(rows[0])
    requires Rows(raw, next, |rows[1..]|, rows[0]) == Some(rows[1..])
    ensures Rows(raw, offset, |rows|, prev) == Some(rows)
  {
    RowsNext(raw, offset, |rows|, prev, rows[0]);
    assert [rows[0]] + rows[1..] == rows;
  }

  /** The data of the first row, and of the others. */
  lemma FilteredParts(fts: seq<Byte>, rows: seq<Bytes>, prev: Bytes, front: Bytes)
    requires rows != [] && |fts| == |rows| && forall y :: 0 <= y < |rows| ==> |rows[y]| == |prev|
    ensures var first, rest := [fts[0]] + Filtered(fts[0], rows[0], prev), FilteredData(fts[1..], rows[1..], rows[0]);
            && FilteredData(fts, rows, prev) == first + rest
            && front + FilteredData(fts, rows, prev) == front + first + rest
  {
    Associative(front, [fts[0]] + Filtered(fts[0], rows[0], prev), FilteredData(fts[1..], rows[1..], rows[0]));
  }

  /** The scanline loops undo any choice of filters. */
  lemma {:induction false} RowsOfFiltered(raw: Bytes, front: Bytes, fts: seq<Byte>, rows: seq<Bytes>, prev: Bytes)
    requires |fts| == |rows| && forall y :: 0 <= y < |rows| ==> |rows[y]| == |prev|
    requires raw == front + FilteredData(fts, rows, prev)
    ensures Rows(raw, |front|, |rows|, prev) == Some(rows)
    decreases rows
  {
    if rows != [] {
      var first, rest := [fts[0]] + Filtered(fts[0], rows[0], prev), FilteredData(fts[1..], rows[1..], rows[0]);
      FilteredParts(fts, rows, prev, front);
      FirstRow(raw, front, fts[0], rows[0], prev, rest);
      RowsOfFiltered(raw, front + first, fts[1..], rows[1..], rows[0]);
      FirstAndOthers(raw, |front|, rows, prev, |front + first|);
    }
  }

  lemma {:induction false} UnfilteredIsFiltered(rows: seq<Bytes>, prev: Bytes)
    requires forall y :: 0 <= y < |rows| ==> |rows[y]| == |prev|
    ensures Unfiltered(rows) == FilteredData(Zeros(|rows|), rows, prev)
    decreases rows
  {
    if rows != [] {
      assert Filtered(0, rows[0], prev) == rows[0];
      assert Zeros(|rows|)[1..] == Zeros(|rows[1..]|);
      UnfilteredIsFiltered(rows[1..], rows[0]);
    }
  }

  datatype Chunk = Chunk(tag: Bytes, data: Bytes)
  {
    ghost predicate Valid() {
      |tag| == 4 && |data| < WORD
    }
  }

  function Serialized(z: Zlib, chunks: seq<Chunk>): Bytes {
    if chunks == [] then [] else ChunkBytes(z, chunks[0].tag, chunks[0].data) + Serialized(z, chunks[1..])
  }

  /** The chunks of a list, one after the other. */
  function ReadChunks(chunks: seq<Chunk>, h: Header): Result<Header, PngError> {
    if chunks == [] then Success(h)
    else
      match ReadChunk(chunks[0].tag, chunks[0].data, 0, h)
      case Stop(r) => r
      case Go(_, h') => ReadChunks(chunks[1..], h')
  }

  /** A number written in four bytes is read back. */
  lemma WordOfBigEndian(s: Bytes, pos: nat, n: nat)
    requires n < WORD && pos + 4 <= |s| && s[pos..pos + 4] == BigEndian(n, 4)
    ensures Word(s, pos) == n
  {
    var w := BigEndian(n, 4);
    assert s[pos..pos + 4][0] == w[0] && s[pos..pos + 4][1] == w[1] && s[pos..pos + 4][2] == w[2]
           && s[pos..pos + 4][3] == w[3];
    var a := BigEndian(n / 256, 3);
    var b := BigEndian(n / 256 / 256, 2);
    var c := BigEndian(n / 256 / 256 / 256, 1);
    assert w == a + [n % 256] && a == b + [n / 256 % 256] && b == c + [n / 256 / 256 % 256];
    assert c == BigEndian(n / 256 / 256 / 256 / 256, 0) + [n / 256 / 256 / 256 % 256];
  }

  /** Where the parts of a chunk lie. */
  lemma ChunkParts(z: Zlib, u: Bytes, front: Bytes, c: Chunk, rest: Bytes)
    requires c.Valid() && u == front + (ChunkBytes(z, c.tag, c.data) + rest)
    ensures |ChunkBytes(z, c.tag, c.data)| == 12 + |c.data| && |front| + 4 <= |u|
    ensures Word(u, |front|) == |c.data| && Slice(u, |front| + 4, |front| + 8) == c.tag
    ensures Slice(u, |front| + 8, |front| + 8 + |c.data|) == c.data
  {
    var n, crc := BigEndian(|c.data|, 4), BigEndian(z.crc32(c.tag + c.data), 4);
    FiveParts(u, front, n, c.tag, c.data, crc, rest);
    WordOfBigEndian(u, |front|, |c.data|);
  }

  lemma FiveParts(u: Bytes, front: Bytes, n: Bytes, tag: Bytes, data: Bytes, crc: Bytes, rest: Bytes)
    requires u == front + (n + tag + data + crc + rest) && |n| == |tag| == 4
    ensures u[|front|..|front| + 4] == n && Slice(u, |front| + 4, |front| + 8) == tag
    ensures Slice(u, |front| + 8, |front| + 8 + |data|) == data
  {
    assert u == front + n + tag + data + (crc + rest);
    PiecesOfFive(front, n, tag, data, crc + rest);
  }

  /** The chunk loop finds a chunk that was written, and goes on behind it. */
  lemma StepOverChunk(z: Zlib, u: Bytes, front: Bytes, c: Chunk, rest: Bytes, h: Header)
    requires c.Valid() && u == front + (ChunkBytes(z, c.tag, c.data) + rest)
    ensures |front| < |u|
    ensures StepAt(u, |front|, h) == ReadChunk(c.tag, c.data, |front + ChunkBytes(z, c.tag, c.data)|, h)
  {
    ChunkParts(z, u, front, c, rest);
  }

  /** The chunk loop finds the chunks that were written. */
  lemma {:induction false} ScanSerialized(z: Zlib, u: Bytes, front: Bytes, chunks: seq<Chunk>, h: Header)
    requires u == front + Serialized(z, chunks) && forall i :: 0 <= i < |chunks| ==> chunks[i].Valid()
    ensures Scan(u, |front|, h) == ReadChunks(chunks, h)
    decreases chunks
  {
    if chunks != [] {
      var c, rest := chunks[0], Serialized(z, chunks[1..]);
      var bytes := ChunkBytes(z, c.tag, c.data);
      StepOverChunk(z, u, front, c, rest, h);
      Associative(front, bytes, rest);
      var step := ReadChunk(c.tag, c.data, 0, h);
      if step.Go? {
        ScanSerialized(z, u, front + bytes, chunks[1..], step.header);
      }
    }
  }

  /** The data of the IDAT chunks, in order. */
  function IdatOf(chunks: seq<Chunk>): seq<Bytes> {
    if chunks == [] then [] else (if Names(chunks[0].tag, IDAT) then [chunks[0].data] else []) + IdatOf(chunks[1..])
  }

  ghost predicate BodyChunk(c: Chunk) {
    c.Valid() && !Names(c.tag, IHDR) && !Names(c.tag, IEND)
  }

  /** A file: the header, any chunks that carry the data among others, the end, and anything behind it. */
  function FileChunks(img: Image, body: seq<Chunk>, behind: seq<Chunk>): seq<Chunk> {
    [Chunk(IHDR, HeaderData(img.width, img.height))] + (body + ([Chunk(IEND, [])] + behind))
  }

  lemma {:induction false} BodyIsRead(body: seq<Chunk>, end: seq<Chunk>, h: Header)
    requires forall i :: 0 <= i < |body| ==> BodyChunk(body[i])
    requires end != [] && end[0] == Chunk(IEND, [])
    ensures ReadChunks(body + end, h) == Success(h.(idat := h.idat + IdatOf(body)))
    decreases body
  {
    if body == [] {
      assert body + end == end;
      assert h.idat + [] == h.idat;
    } else {
      assert (body + end)[1..] == body[1..] + end;
      var here := if Names(body[0].tag, IDAT) then [body[0].data] else [];
      var h' := if Names(body[0].tag, IDAT) then h.(idat := h.idat + here) else h;
      BodyIsRead(body[1..], end, h');
      assert h.idat + [] == h.idat;
      Associative(h.idat, here, IdatOf(body[1..]));
    }
  }

  lemma HeaderIsRead(width: nat, height: nat, h: Header)
    requires width < WORD && height < WORD
    ensures ReadChunk(IHDR, HeaderData(width, height), 0, h) == Go(0, h.(width := width, height := height))
  {
    var data := HeaderData(width, height);
    assert data[0..4] == BigEndian(width, 4) && data[4..8] == BigEndian(height, 4) && data[8] == 8 && data[9] == 6;
    WordOfBigEndian(data, 0, width);
    WordOfBigEndian(data, 4, height);
  }

  /** Any 8-bit RGBA image reads back as it was, whatever filter each row has, however the compressed data is spread
      over IDAT chunks, and whatever other chunks stand between them or behind the end. */
  lemma DecodeInvertsFiltering(z: Zlib, img: Image, fts: seq<Byte>, body: seq<Chunk>, behind: seq<Chunk>)
    requires z.Valid() && img.Valid() && img.width < WORD && img.height < WORD && |fts| == img.height
    requires forall i :: 0 <= i < |body| ==> BodyChunk(body[i])
    requires forall i :: 0 <= i < |behind| ==> behind[i].Valid()
    requires Concat(IdatOf(body)) == z.compress(FilteredData(fts, img.rows, Zeros(BPP * img.width)))
    ensures Decode(z, SIGNATURE + Serialized(z, FileChunks(img, body, behind))) == Success(img)
  {
    var chunks := FileChunks(img, body, behind);
    var png := SIGNATURE + Serialized(z, chunks);
    var read := Header(img.width, img.height, IdatOf(body));
    assert Slice(png, 0, 8) == SIGNATURE;
    ScanSerialized(z, png, SIGNATURE, chunks, NO_HEADER);
    FileIsRead(img, body, behind);
    var data := FilteredData(fts, img.rows, Zeros(BPP * img.width));
    assert [] + data == data;
    RowsOfFiltered(data, [], fts, img.rows, Zeros(BPP * img.width));
  }

  lemma FileIsRead(img: Image, body: seq<Chunk>, behind: seq<Chunk>)
    requires img.width < WORD && img.height < WORD && forall i :: 0 <= i < |body| ==> BodyChunk(body[i])
    ensures ReadChunks(FileChunks(img, body, behind), NO_HEADER) == Success(Header(img.width, img.height, IdatOf(body)))
  {
    var rest := body + ([Chunk(IEND, [])] + behind);
    HeaderIsRead(img.width, img.height, NO_HEADER);
    BodyIsRead(body, [Chunk(IEND, [])] + behind, Header(img.width, img.height, []));
    assert FileChunks(img, body, behind)[1..] == rest;
    assert [] + IdatOf(body) == IdatOf(body);
  }

  /** What is encoded decodes to the same image. */
  lemma EncodeDecode(z: Zlib, img: Image)
    requires z.Valid() && img.Valid() && Encode(z, img).Some?
    ensures Decode(z, Encode(z, img).value) == Success(img)
  {
    var prev := Zeros(BPP * img.width);
    var data := z.compress(Unfiltered(img.rows));
    var body := [Chunk(IDAT, data)];
    UnfilteredIsFiltered(img.rows, prev);
    var parts := [data];
    assert body[1..] == [] && IdatOf(body) == parts && parts[1..] == [];
    assert Concat(parts) == data;
    EncodedAsChunks(z, img);
    DecodeInvertsFiltering(z, img, Zeros(|img.rows|), body, []);
  }

  lemma EncodedAsChunks(z: Zlib, img: Image)
    requires Encode(z, img).Some?
    ensures var body := [Chunk(IDAT, z.compress(Unfiltered(img.rows)))];
            Encode(z, img).value == SIGNATURE + Serialized(z, FileChunks(img, body, []))
  {
    var body := [Chunk(IDAT, z.compress(Unfiltered(img.rows)))];
    var a, b, c := Chunk(IHDR, HeaderData(img.width, img.height)), body[0], Chunk(IEND, []);
    assert FileChunks(img, body, []) == [a, b, c];
    ThreeSerialized(z, a, b, c);
    Regrouped(SIGNATURE, ChunkBytes(z, a.tag, a.data), ChunkBytes(z, b.tag, b.data), ChunkBytes(z, c.tag, c.data));
  }

  lemma ThreeSerialized(z: Zlib, a: Chunk, b: Chunk, c: Chunk)
    ensures Serialized(z, [a, b, c])
            == ChunkBytes(z, a.tag, a.data) + (ChunkBytes(z, b.tag, b.data) + (ChunkBytes(z, c.tag, c.data) + []))
  {
    assert [a, b, c][1..] == [b, c] && [b, c][1..] == [c] && [c][1..] == [];
    assert Serialized(z, [c]) == ChunkBytes(z, c.tag, c.data) + [];
  }

  lemma Regrouped(s: Bytes, a: Bytes, b: Bytes, c: Bytes)
    ensures s + a + b + c == s + (a + (b + (c + [])))
  {}
}
