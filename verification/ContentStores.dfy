/// The two content repositories behind one interface: in memory (src/core/storage/memory-node-storage.ts) and
/// on disk with a SQL index (src/node/content-store.ts), and reading content back (src/node/qdht-node.ts).
module ContentStores {
  import opened Wrappers
  import opened Pieces
  import opened Sorting

  /// The digest of a byte string, as hexadecimal text.
  type Digest = Bytes -> string

  ghost predicate Injective(hash: Digest) {
    forall a: Bytes, b: Bytes :: hash(a) == hash(b) ==> a == b
  }

  // ---------- what a repository is for: a map from hash to content ----------

  function PieceOf(contents: map<string, Bytes>, h: string, i: int): Option<Bytes> {
    if h in contents && 0 <= i < |Split(contents[h], PIECE_SIZE)| then Some(Split(contents[h], PIECE_SIZE)[i]) else None
  }

  function Stored(hash: Digest, puts: seq<Bytes>): map<string, Bytes> {
    if puts == [] then map[]
    else
      var last := puts[|puts| - 1];
      Stored(hash, puts[..|puts| - 1])[hash(last) := last]
  }

  /// Content that was put stays retrievable by its hash after any further puts.
  lemma {:induction false} StoredForever(hash: Digest, puts: seq<Bytes>, k: nat)
    requires Injective(hash) && k < |puts|
    ensures hash(puts[k]) in Stored(hash, puts) && Stored(hash, puts)[hash(puts[k])] == puts[k]
  {
    if k < |puts| - 1 {
      StoredForever(hash, puts[..|puts| - 1], k);
    }
  }

  function Hashes(hash: Digest, pieces: seq<Bytes>): (r: seq<string>)
  {
    Map(pieces, hash)
  }

  datatype Entry = Entry(hash: string, totalPieces: nat, pieceSize: nat, sizeBytes: nat, pieceHashes: seq<string>)

  function EntryFor(hash: Digest, data: Bytes): Entry {
    var pieces := Split(data, PIECE_SIZE);
    Entry(hash(data), |pieces|, PIECE_SIZE, |data|, Hashes(hash, pieces))
  }

  // ---------- in memory ----------

  class MemoryContentRepository {
    const hash: Digest
    var index: map<string, Entry>
    var pieces: map<string, seq<Bytes>>
    ghost var contents: map<string, Bytes>

    ghost predicate Valid()
      reads this
    {
      && index.Keys == pieces.Keys == contents.Keys
      && forall h :: h in contents ==>
          hash(contents[h]) == h && index[h] == EntryFor(hash, contents[h]) && pieces[h] == Split(contents[h], PIECE_SIZE)
    }

    constructor (hash: Digest)
      ensures Valid() && contents == map[] && this.hash == hash
    {
      this.hash := hash;
      index, pieces, contents := map[], map[], map[];
    }

    method Put(data: Bytes) returns (key: string)
      requires Valid()
      modifies this
      ensures Valid() && key == hash(data) && contents == old(contents)[key := data]
    {
      key := hash(data);
      var parts := SplitPieces(data);
      index := index[key := Entry(key, |parts|, PIECE_SIZE, |data|, Hashes(hash, parts))];
      pieces := pieces[key := parts];
      contents := contents[key := data];
    }

    method HasPiece(h: string, i: int) returns (r: bool)
      requires Valid()
      ensures r == PieceOf(contents, h, i).Some?
    {
      r := h in pieces && 0 <= i < |pieces[h]|;
    }

    method GetPiece(h: string, i: int) returns (r: Option<Bytes>)
      requires Valid()
      ensures r == PieceOf(contents, h, i)
    {
      if h !in index || h !in pieces || i < 0 || i >= |pieces[h]| {
        return None;
      }
      var piece := pieces[h][i];
      if hash(piece) != index[h].pieceHashes[i] {
        return None;
      }
      r := Some(piece);
    }
  }

  // ---------- on disk ----------

  datatype IndexRow = IndexRow(hash: string, totalPieces: nat, pieceSize: nat, sizeBytes: nat)
  datatype HashRow = HashRow(qkey: string, pieceIndex: nat, pieceHash: string)

  function OfKey(key: string): HashRow -> bool {
    (r: HashRow) => r.qkey == key
  }

  function NotOfKey(key: string): HashRow -> bool {
    (r: HashRow) => r.qkey != key
  }

  function ByIndex(): HashRow -> real {
    (r: HashRow) => r.pieceIndex as real
  }

  function HashColumn(): HashRow -> string {
    (r: HashRow) => r.pieceHash
  }

  function HashRows(hash: Digest, key: string, pieces: seq<Bytes>): (rows: seq<HashRow>)
    ensures |rows| == |pieces| && forall i :: 0 <= i < |rows| ==> rows[i] == HashRow(key, i, hash(pieces[i]))
  {
    seq(|pieces|, i requires 0 <= i < |pieces| => HashRow(key, i, hash(pieces[i])))
  }

  lemma {:induction false} FilterTwice(rows: seq<HashRow>, key: string, other: string)
    ensures Filter(Filter(rows, NotOfKey(key)), OfKey(other)) == if other == key then [] else Filter(rows, OfKey(other))
  {
    if rows != [] {
      FilterTwice(rows[..|rows| - 1], key, other);
      FilterSnoc(Filter(rows[..|rows| - 1], NotOfKey(key)), rows[|rows| - 1], OfKey(other));
    }
  }

  /// Replacing the rows of one key.
  lemma RowsReplaced(hash: Digest, rows: seq<HashRow>, key: string, pieces: seq<Bytes>, other: string)
    ensures Filter(Filter(rows, NotOfKey(key)) + HashRows(hash, key, pieces), OfKey(other))
            == if other == key then HashRows(hash, key, pieces) else Filter(rows, OfKey(other))
  {
    var kept, added := Filter(rows, NotOfKey(key)), HashRows(hash, key, pieces);
    FilterConcat(kept, added, OfKey(other));
    FilterTwice(rows, key, other);
    if other == key {
      FilterAll(added, OfKey(other));
    } else {
      FilterNone(added, OfKey(other));
    }
  }

  ghost predicate Describes(hash: Digest, index: map<string, IndexRow>, hashRows: seq<HashRow>, contents: map<string, Bytes>) {
    && index.Keys == contents.Keys
    && forall h :: h in contents ==>
        && hash(contents[h]) == h
        && index[h] == IndexRow(h, |Split(contents[h], PIECE_SIZE)|, PIECE_SIZE, |contents[h]|)
        && Filter(hashRows, OfKey(h)) == HashRows(hash, h, Split(contents[h], PIECE_SIZE))
  }

  ghost predicate Holds(files: map<(string, nat), Bytes>, contents: map<string, Bytes>) {
    forall h, i: nat :: h in contents && i < |Split(contents[h], PIECE_SIZE)| ==>
      (h, i) in files && files[(h, i)] == Split(contents[h], PIECE_SIZE)[i]
  }

  /// The tables after the row of one key and its hashes were replaced.
  lemma TablesReplaced(hash: Digest, index: map<string, IndexRow>, hashRows: seq<HashRow>, contents: map<string, Bytes>, data: Bytes)
    requires Describes(hash, index, hashRows, contents)
    ensures var key, pieces := hash(data), Split(data, PIECE_SIZE);
            Describes(hash, index[key := IndexRow(key, |pieces|, PIECE_SIZE, |data|)],
                      Filter(hashRows, NotOfKey(key)) + HashRows(hash, key, pieces), contents[key := data])
  {
    var key, pieces := hash(data), Split(data, PIECE_SIZE);
    var rows, after := Filter(hashRows, NotOfKey(key)) + HashRows(hash, key, pieces), contents[key := data];
    hide Filter, Split;
    forall h | h in after
      ensures Filter(rows, OfKey(h)) == HashRows(hash, h, Split(after[h], PIECE_SIZE))
    {
      RowsReplaced(hash, hashRows, key, pieces, h);
    }
  }

  class ContentStore {
    const hash: Digest
    var files: map<(string, nat), Bytes>
    var index: map<string, IndexRow>
    var hashRows: seq<HashRow>
    ghost var contents: map<string, Bytes>

    /// The two tables describe the contents.
    ghost predicate Indexed()
      reads this
    {
      Describes(hash, index, hashRows, contents)
    }

    /// Every piece is in its file.
    ghost predicate Filed()
      reads this
    {
      Holds(files, contents)
    }

    constructor (hash: Digest)
      ensures Indexed() && Filed() && contents == map[] && this.hash == hash
    {
      this.hash := hash;
      files, index, hashRows, contents := map[], map[], [], map[];
    }

    /// Opening the data directory another store has left.
    constructor Reopen(left: ContentStore)
      requires left.Indexed()
      ensures Indexed() && contents == left.contents && files == left.files && hash == left.hash
      ensures left.Filed() ==> Filed()
    {
      hash := left.hash;
      files, index, hashRows, contents := left.files, left.index, left.hashRows, left.contents;
    }

    method Put(data: Bytes) returns (key: string)
      requires Indexed() && Filed()
      modifies this
      ensures Indexed() && Filed() && key == hash(data) && contents == old(contents)[key := data]
    {
      hide Filter, Split, HashRows, Describes;
      TablesReplaced(hash, index, hashRows, contents, data);
      key := hash(data);
      var pieces := SplitPieces(data);
      WriteFiles(key, pieces);
      index := index[key := IndexRow(key, |pieces|, PIECE_SIZE, |data|)];
      WriteHashes(key, pieces);
      contents := contents[key := data];
    }

    method WriteFiles(key: string, pieces: seq<Bytes>)
      modifies this`files
      ensures forall i: nat :: i < |pieces| ==> (key, i) in files && files[(key, i)] == pieces[i]
      ensures forall h, i: nat :: h != key && (h, i) in old(files) ==> (h, i) in files && files[(h, i)] == old(files)[(h, i)]
    {
      for n := 0 to |pieces|
        invariant forall i: nat :: i < n ==> (key, i) in files && files[(key, i)] == pieces[i]
        invariant forall h, i: nat :: h != key && (h, i) in old(files) ==> (h, i) in files && files[(h, i)] == old(files)[(h, i)]
      {
        files := files[(key, n) := pieces[n]];
      }
    }

    method WriteHashes(key: string, pieces: seq<Bytes>)
      modifies this`hashRows
      ensures hashRows == Filter(old(hashRows), NotOfKey(key)) + HashRows(hash, key, pieces)
    {
      hashRows := Filter(hashRows, NotOfKey(key));
      var pieceHashes := Hashes(hash, pieces);
      ghost var kept, all := hashRows, HashRows(hash, key, pieces);
      for n := 0 to |pieceHashes|
        invariant hashRows == kept + all[..n]
      {
        assert all[..n + 1] == all[..n] + [all[n]];
        hashRows := hashRows + [HashRow(key, n, pieceHashes[n])];
      }
      assert all[..|pieceHashes|] == all;
    }

    method LoadPieceHashes(key: string) returns (r: seq<string>)
      requires Indexed() && key in contents
      ensures r == Hashes(hash, Split(contents[key], PIECE_SIZE))
    {
      var rows := Filter(hashRows, OfKey(key));
      SortIdentity(rows, ByIndex());
      r := Map(Sort(rows, ByIndex()), HashColumn());
    }

    method HasPiece(h: string, i: int) returns (r: bool)
      requires Indexed() && Filed()
      ensures r == PieceOf(contents, h, i).Some?
    {
      if h !in index || i < 0 || i >= index[h].totalPieces {
        return false;
      }
      r := (h, i) in files;
    }

    /// Whatever the files hold, a piece that is returned has the recorded hash.
    method GetPiece(h: string, i: int) returns (r: Option<Bytes>)
      requires Indexed()
      ensures Filed() ==> r == PieceOf(contents, h, i)
      ensures r.Some? ==> PieceOf(contents, h, i).Some? && hash(r.value) == hash(PieceOf(contents, h, i).value)
    {
      if h !in index || i < 0 || i >= index[h].totalPieces {
        return None;
      }
      var pieceHashes := LoadPieceHashes(h);
      if (h, i) !in files {
        return None;
      }
      var piece := files[(h, i)];
      if hash(piece) != pieceHashes[i] {
        return None;
      }
      r := Some(piece);
    }

    /// Reading back is the identity; and if files were lost or altered, the answer is the original or none.
    method GetContent(key: string) returns (r: Option<Bytes>)
      requires Indexed()
      ensures Filed() ==> r == if key in contents then Some(contents[key]) else None
      ensures Injective(hash) && r.Some? ==> key in contents && r.value == contents[key]
    {
      if key !in index {
        return None;
      }
      ghost var pieces := Split(contents[key], PIECE_SIZE);
      var chunks: seq<Bytes> := [];
      for i := 0 to index[key].totalPieces
        invariant |chunks| == i
        invariant Filed() || Injective(hash) ==> chunks == pieces[..i]
      {
        var piece := GetPiece(index[key].hash, i);
        if piece.None? {
          return None;
        }
        assert PieceOf(contents, key, i) == Some(pieces[i]);
        assert pieces[..i + 1] == pieces[..i] + [pieces[i]];
        chunks := chunks + [piece.value];
      }
      assert pieces[..|pieces|] == pieces;
      SplitConcat(contents[key], PIECE_SIZE);
      r := Some(Concat(chunks));
    }
  }
}
