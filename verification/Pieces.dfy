/// Cutting content into pieces, the byte ranges that providers serve for them, and putting them together
/// (src/node/content-store.ts, src/core/storage/memory-node-storage.ts, src/core/content/filesystem-provider.ts,
/// src/core/content/http-provider.ts).
module Pieces {
  import opened Wrappers

  type Bytes = seq<bv8>

  const PIECE_SIZE: nat := 524288

  function Min(a: nat, b: nat): nat {
    if a <= b then a else b
  }

  /// `Buffer.subarray` for bounds that are not negative: both are clamped to the buffer.
  function Subarray(data: Bytes, start: nat, end: nat): Bytes {
    var first, last := Min(start, |data|), Min(end, |data|);
    if first <= last then data[first..last] else []
  }

  /// Content as its pieces: all full but the last, which is empty only for empty content.
  function Split(data: Bytes, size: nat): (pieces: seq<Bytes>)
    requires size >= 1
    ensures pieces != []
    decreases |data|
  {
    if |data| <= size then [data] else [data[..size]] + Split(data[size..], size)
  }

  /// `Buffer.concat`
  function Concat(pieces: seq<Bytes>): Bytes {
    if pieces == [] then [] else Concat(pieces[..|pieces| - 1]) + pieces[|pieces| - 1]
  }

  method SplitPieces(data: Bytes) returns (pieces: seq<Bytes>)
    ensures pieces == Split(data, 524288)
  {
    hide Split, Subarray;
    EmptySplit(PIECE_SIZE);
    pieces := [];
    var offset := 0;
    assert data[0..] == data;
    while offset < |data|
      invariant offset < |data| ==> Split(data, PIECE_SIZE) == pieces + Split(data[offset..], PIECE_SIZE)
      invariant offset >= |data| && data != [] ==> pieces == Split(data, PIECE_SIZE)
      invariant data != [] && offset > 0 ==> pieces != []
      invariant data == [] ==> offset == 0
      invariant offset == 0 ==> pieces == []
    {
      SplitStep(data, offset, PIECE_SIZE);
      pieces := pieces + [Subarray(data, offset, offset + PIECE_SIZE)];
      offset := offset + PIECE_SIZE;
    }
    if pieces == [] {
      pieces := [[]];
    }
  }

  lemma EmptySplit(size: nat)
    requires size >= 1
    ensures Split([], size) == [[]]
  {
  }

  lemma SplitStep(data: Bytes, offset: nat, size: nat)
    requires size >= 1 && offset < |data|
    ensures Split(data[offset..], size)
            == [Subarray(data, offset, offset + size)] + if offset + size < |data| then Split(data[offset + size..], size) else []
  {
    var rest, piece := data[offset..], Subarray(data, offset, offset + size);
    if |rest| <= size {
      assert rest == piece;
    } else {
      assert rest[..size] == piece && rest[size..] == data[offset + size..];
    }
  }

  // ---------- cutting and joining ----------

  lemma {:induction false} ConcatHead(first: Bytes, rest: seq<Bytes>)
    ensures Concat([first] + rest) == first + Concat(rest)
  {
    if rest == [] {
      assert [first] + rest == [] + [first] && Concat([first][..0]) == [];
      assert [first][..0] == [];
    } else {
      var front, last := rest[..|rest| - 1], rest[|rest| - 1];
      ConcatHead(first, front);
      assert ([first] + rest)[..|rest|] == [first] + front;
    }
  }

  /// Splitting and joining is the identity on every byte string.
  lemma {:induction false} SplitConcat(data: Bytes, size: nat)
    requires size >= 1
    ensures Concat(Split(data, size)) == data
    decreases |data|
  {
    if |data| <= size {
      assert Concat([data]) == data by { ConcatHead(data, []); }
    } else {
      SplitConcat(data[size..], size);
      ConcatHead(data[..size], Split(data[size..], size));
    }
  }

  /// Where a piece begins.
  function Offset(i: nat, size: nat): nat {
    i * size
  }

  lemma OffsetNext(i: nat, size: nat)
    ensures Offset(i + 1, size) == size + Offset(i, size) && Offset(0, size) == 0
  {
  }

  /// Piece i is the byte range i, and there are as many pieces as ranges that begin inside the content
  /// (one for empty content).
  lemma {:induction false} PieceIsRange(data: Bytes, size: nat, i: nat)
    requires size >= 1
    ensures i < |Split(data, size)| <==> i == 0 || Offset(i, size) < |data|
    ensures i < |Split(data, size)| ==> Split(data, size)[i] == Subarray(data, Offset(i, size), Offset(i, size) + size)
    decreases |data|
  {
    hide Offset, Subarray;
    OffsetNext(0, size);
    if i == 0 {
      FirstPiece(data, size);
    } else {
      OffsetNext(i - 1, size);
      if |data| > size {
        PieceIsRange(data[size..], size, i - 1);
        RangeShift(data, size, Offset(i - 1, size), Offset(i - 1, size) + size);
      }
    }
  }

  lemma FirstPiece(data: Bytes, size: nat)
    requires size >= 1
    ensures Split(data, size)[0] == Subarray(data, 0, size)
  {
  }

  lemma RangeShift(data: Bytes, skip: nat, start: nat, end: nat)
    requires skip <= |data| && start <= end
    ensures Subarray(data[skip..], start, end) == Subarray(data, skip + start, skip + end)
  {
  }

  /// Every piece but the last is full; the last is not empty unless the content is.
  lemma {:induction false} PieceSizes(data: Bytes, size: nat, i: nat)
    requires size >= 1 && i < |Split(data, size)|
    ensures i + 1 < |Split(data, size)| ==> |Split(data, size)[i]| == size
    ensures i + 1 == |Split(data, size)| ==> (|Split(data, size)[i]| == 0 <==> data == []) && |Split(data, size)[i]| <= size
    decreases |data|
  {
    if |data| > size && i > 0 {
      PieceSizes(data[size..], size, i - 1);
    }
  }

  // ---------- providers ----------

  datatype Descriptor = Descriptor(pieceIndex: nat, pieceSize: nat, totalSize: nat)

  /// What the fetcher asks for: the size it announces is a whole number of pieces.
  function Describe(pieceIndex: nat, pieceSize: nat, totalPieces: nat): Descriptor {
    Descriptor(pieceIndex, pieceSize, Offset(totalPieces, pieceSize))
  }

  function FilesystemPiece(file: Bytes, d: Descriptor): Bytes {
    var start := Offset(d.pieceIndex, d.pieceSize);
    Subarray(file, start, Min(d.totalSize, start + d.pieceSize))
  }

  /// First and last byte position of the Range header.
  function PieceRange(d: Descriptor): (int, int) {
    var start := Offset(d.pieceIndex, d.pieceSize);
    var end := Min(d.totalSize, start + d.pieceSize) - 1;
    (start, if start >= end then start else end)
  }

  /// An origin server's answer to `bytes=first-last` as section 14.1.2 of RFC 9110 defines it: a range that
  /// begins past the end is unsatisfiable, one that ends past the end is cut there.
  function ServeRange(body: Bytes, first: nat, last: nat): Option<Bytes> {
    if first >= |body| then None else Some(Subarray(body, first, last + 1))
  }

  function HttpPiece(body: Bytes, d: Descriptor): Option<Bytes> {
    var (first, last) := PieceRange(d);
    ServeRange(body, first, last)
  }

  lemma {:induction false} WholePieces(i: nat, n: nat, size: nat)
    requires i < n
    ensures Offset(i, size) + size <= Offset(n, size)
  {
    hide Offset;
    OffsetNext(n - 1, size);
    if i < n - 1 {
      WholePieces(i, n - 1, size);
    }
  }

  /// The file provider serves exactly the pieces of the content.
  lemma FilesystemServesPieces(data: Bytes, size: nat, i: nat)
    requires size >= 1 && i < |Split(data, size)|
    ensures FilesystemPiece(data, Describe(i, size, |Split(data, size)|)) == Split(data, size)[i]
  {
    hide Offset;
    PieceIsRange(data, size, i);
    WholePieces(i, |Split(data, size)|, size);
  }

  /// The web provider serves them too, exactly when there is a byte to serve: the one piece of empty content
  /// has no satisfiable range.
  lemma HttpServesPieces(data: Bytes, size: nat, i: nat)
    requires size >= 1 && i < |Split(data, size)|
    ensures HttpPiece(data, Describe(i, size, |Split(data, size)|)) == Some(Split(data, size)[i]) <==> data != []
    ensures data == [] ==> HttpPiece(data, Describe(i, size, |Split(data, size)|)) == None
  {
    hide Offset;
    PieceIsRange(data, size, i);
    WholePieces(i, |Split(data, size)|, size);
  }
}
