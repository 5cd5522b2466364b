/// Newline framing: the reader and writer of src/node/quic-adapter.ts and the line splitter of src/node/qdht-node.ts.
module Framing {
  import opened Wrappers

  // ---------- trimming ----------

  /// The white space and line terminators that `String.prototype.trim` removes.
  predicate IsSpace(c: char) {
    var u := c as int;
    9 <= u <= 13 || u in {32, 160, 0x1680, 0x2028, 0x2029, 0x202f, 0x205f, 0x3000, 0xfeff} || 0x2000 <= u <= 0x200a
  }

  /// The same characters, one by one.
  const WHITE_SPACE: set<char> := {
    '\t', '\n', '\U{B}', '\U{C}', '\r', ' ', '\U{A0}', '\U{1680}',
    '\U{2000}', '\U{2001}', '\U{2002}', '\U{2003}', '\U{2004}', '\U{2005}', '\U{2006}', '\U{2007}', '\U{2008}', '\U{2009}', '\U{200A}',
    '\U{2028}', '\U{2029}', '\U{202F}', '\U{205F}', '\U{3000}', '\U{FEFF}'}

  lemma SpaceIs(c: char)
    ensures IsSpace(c) <==> c in WHITE_SPACE
  {
    var u := c as int;
    assert IsSpace(c) ==> c == u as char;
  }

  function TrimStart(s: string): string {
    if s != "" && IsSpace(s[0]) then TrimStart(s[1..]) else s
  }

  function TrimEnd(s: string): string {
    if s != "" && IsSpace(s[|s| - 1]) then TrimEnd(s[..|s| - 1]) else s
  }

  function Trim(s: string): string {
    TrimEnd(TrimStart(s))
  }

  /// A string without outer white space.
  predicate Tight(s: string) {
    s == "" || (!IsSpace(s[0]) && !IsSpace(s[|s| - 1]))
  }

  lemma {:induction false} TrimStartFacts(s: string)
    ensures TrimStart(s) == "" || !IsSpace(TrimStart(s)[0])
    ensures forall c :: c in TrimStart(s) ==> c in s
  {
    if s != "" && IsSpace(s[0]) {
      TrimStartFacts(s[1..]);
    }
  }

  lemma {:induction false} TrimEndFacts(s: string)
    ensures TrimEnd(s) == "" || (!IsSpace(TrimEnd(s)[|TrimEnd(s)| - 1]) && TrimEnd(s)[0] == s[0])
    ensures s != "" && !IsSpace(s[0]) ==> TrimEnd(s) != ""
    ensures forall c :: c in TrimEnd(s) ==> c in s
  {
    if s != "" && IsSpace(s[|s| - 1]) {
      TrimEndFacts(s[..|s| - 1]);
    }
  }

  /// Trimming leaves a tight string of the same characters, and tight strings alone.
  lemma TrimFacts(s: string)
    ensures Tight(Trim(s)) && (Trim(s) == s <==> Tight(s))
    ensures Tight(s) <==> s == "" || (s[0] !in WHITE_SPACE && s[|s| - 1] !in WHITE_SPACE)
    ensures forall c :: c in Trim(s) ==> c in s
  {
    if s != "" {
      SpaceIs(s[0]);
      SpaceIs(s[|s| - 1]);
    }
    hide IsSpace;
    TrimStartFacts(s);
    TrimEndFacts(TrimStart(s));
  }

  ghost predicate White(s: string) {
    forall c :: c in s ==> c in WHITE_SPACE
  }

  lemma {:induction false} TrimStartCuts(s: string) returns (a: string)
    ensures s == a + TrimStart(s) && White(a)
  {
    a := "";
    if s != "" && IsSpace(s[0]) {
      a := TrimStartCuts(s[1..]);
      SpaceIs(s[0]);
      a := [s[0]] + a;
    }
    hide IsSpace;
  }

  lemma {:induction false} TrimEndCuts(s: string) returns (b: string)
    ensures s == TrimEnd(s) + b && White(b)
  {
    b := "";
    if s != "" && IsSpace(s[|s| - 1]) {
      b := TrimEndCuts(s[..|s| - 1]);
      SpaceIs(s[|s| - 1]);
      b := b + [s[|s| - 1]];
    }
    hide IsSpace;
  }

  /// The text is the trimmed one between white space, and that neither begins nor ends with any.
  ghost predicate CoreOf(core: string, s: string) {
    && (core != "" ==> core[0] !in WHITE_SPACE && core[|core| - 1] !in WHITE_SPACE)
    && exists a: string, b: string :: White(a) && White(b) && s == a + core + b
  }

  lemma TrimExact(s: string)
    ensures CoreOf(Trim(s), s) && (Trim(s) == "" <==> White(s))
  {
    TrimFacts(s);
    var a := TrimStartCuts(s);
    var b := TrimEndCuts(TrimStart(s));
    hide TrimStart, TrimEnd, IsSpace;
    var core := Trim(s);
    assert White(a) && White(b) && s == a + core + b;
    if core != "" {
      SpaceIs(core[0]);
      SpaceIs(core[|core| - 1]);
      assert core[0] in s;
    }
  }

  // ---------- lines ----------

  function IndexOfNewline(s: string): (i: Option<nat>)
    ensures i.None? <==> '\n' !in s
    ensures i.Some? ==> i.value < |s| && s[i.value] == '\n' && '\n' !in s[..i.value]
  {
    if s == "" then None
    else if s[0] == '\n' then Some(0)
    else
      assert s == [s[0]] + s[1..];
      match IndexOfNewline(s[1..])
      case None => None
      case Some(i) =>
        assert s[..i + 1] == [s[0]] + s[1..][..i];
        Some(i + 1)
  }

  /// The complete lines of a text, and what follows the last newline.
  function Lines(s: string): seq<string>
    decreases |s|
  {
    match IndexOfNewline(s)
    case None => []
    case Some(i) => [s[..i]] + Lines(s[i + 1..])
  }

  function Rest(s: string): string
    decreases |s|
  {
    match IndexOfNewline(s)
    case None => s
    case Some(i) => Rest(s[i + 1..])
  }

  /// The trimmed lines that are not blank, in order.
  function Frames(lines: seq<string>): seq<string> {
    if lines == [] then []
    else (if Trim(lines[0]) != "" then [Trim(lines[0])] else []) + Frames(lines[1..])
  }

  /// What a decoder emits for a text.
  function Emitted(s: string): seq<string> {
    Frames(Lines(s))
  }

  function Unlines(lines: seq<string>): string {
    if lines == [] then "" else lines[0] + "\n" + Unlines(lines[1..])
  }

  lemma LinesStop(s: string)
    requires '\n' !in s
    ensures Lines(s) == [] && Rest(s) == s
  {
  }

  lemma LinesStep(line: string, after: string)
    requires '\n' !in line
    ensures Lines(line + "\n" + after) == [line] + Lines(after) && Rest(line + "\n" + after) == Rest(after)
  {
    var s := line + "\n" + after;
    assert s[..|line|] == line && s[|line| + 1..] == after;
    NewlineAt(s, |line|);
  }

  lemma NewlineAt(s: string, k: nat)
    requires k < |s| && s[k] == '\n' && '\n' !in s[..k]
    ensures IndexOfNewline(s) == Some(k)
  {
  }

  /// Cutting off the first line.
  lemma FirstLine(s: string) returns (line: string, after: string)
    requires '\n' in s
    ensures s == line + "\n" + after && '\n' !in line
  {
    var i := IndexOfNewline(s).value;
    line, after := s[..i], s[i + 1..];
  }

  /// Lines and rest are the text cut at its newlines: put together again they give it, and none contains one.
  lemma {:induction false} LinesPartition(s: string)
    ensures Unlines(Lines(s)) + Rest(s) == s
    ensures '\n' !in Rest(s) && forall l :: l in Lines(s) ==> '\n' !in l
    decreases |s|
  {
    hide Lines, Rest;
    if '\n' in s {
      var line, after := FirstLine(s);
      LinesPartition(after);
      LinesStep(line, after);
      assert line + "\n" + Unlines(Lines(after)) + Rest(after) == line + "\n" + (Unlines(Lines(after)) + Rest(after));
    } else {
      LinesStop(s);
    }
  }

  /// There is only one way to cut a text at its newlines.
  lemma {:induction false} LinesUnique(lines: seq<string>, rest: string)
    requires '\n' !in rest && forall l :: l in lines ==> '\n' !in l
    ensures Lines(Unlines(lines) + rest) == lines && Rest(Unlines(lines) + rest) == rest
  {
    hide Lines, Rest;
    if lines == [] {
      assert Unlines(lines) + rest == rest;
      LinesStop(rest);
    } else {
      LinesUnique(lines[1..], rest);
      assert Unlines(lines) + rest == lines[0] + "\n" + (Unlines(lines[1..]) + rest);
      LinesStep(lines[0], Unlines(lines[1..]) + rest);
    }
  }

  /// Text that arrives in two parts: the rest of the first goes in front of the second.
  lemma {:induction false} LinesAppend(a: string, b: string)
    ensures Lines(a + b) == Lines(a) + Lines(Rest(a) + b)
    ensures Rest(a + b) == Rest(Rest(a) + b)
    decreases |a|
  {
    hide Lines, Rest;
    if '\n' in a {
      var line, after := FirstLine(a);
      LinesAppend(after, b);
      assert a + b == line + "\n" + (after + b);
      LinesStep(line, after + b);
      LinesStep(line, after);
    } else {
      LinesStop(a);
    }
  }

  lemma {:induction false} FramesConcat(a: seq<string>, b: seq<string>)
    ensures Frames(a + b) == Frames(a) + Frames(b)
  {
    if a == [] {
      assert a + b == b;
    } else {
      assert (a + b)[1..] == a[1..] + b;
      FramesConcat(a[1..], b);
    }
  }

  lemma EmittedAppend(a: string, b: string)
    ensures Emitted(a + b) == Emitted(a) + Emitted(Rest(a) + b) && Rest(a + b) == Rest(Rest(a) + b)
  {
    LinesAppend(a, b);
    FramesConcat(Lines(a), Lines(Rest(a) + b));
  }

  // ---------- the two decoders ----------

  /// The byte order mark.
  const BOM: char := '\U{FEFF}'

  /// A new text decoder is made for every value, and drops the mark at its start.
  function DropBom(value: string): string {
    if value != "" && value[0] == BOM then value[1..] else value
  }

  function DropBoms(values: seq<string>): (r: seq<string>)
    ensures |r| == |values| && forall i :: 0 <= i < |values| ==> r[i] == DropBom(values[i])
  {
    seq(|values|, i requires 0 <= i < |values| => DropBom(values[i]))
  }

  /// A QUIC channel's buffer and the frames handed to `handleFrame`.
  class QuicChannel {
    var buffer: string
    var frames: seq<string>

    constructor ()
      ensures buffer == "" && frames == []
    {
      buffer, frames := "", [];
    }

    /// Values are read until the stream ends.
    method ReadLoop(values: seq<string>)
      modifies this
      requires '\n' !in buffer
      ensures '\n' !in buffer
      ensures frames == old(frames) + Emitted(old(buffer) + Joined(DropBoms(values)))
      ensures buffer == Rest(old(buffer) + Joined(DropBoms(values)))
    {
      hide Lines, Rest, Emitted, Joined, DropBom;
      ghost var start, texts := buffer, DropBoms(values);
      TextStart(start, texts);
      for n := 0 to |values|
        invariant frames == old(frames) + Emitted(start + Joined(texts[..n]))
        invariant buffer == Rest(start + Joined(texts[..n]))
      {
        TextStep(start, texts, n);
        Receive(values[n]);
      }
    }

    /// One value from the reader.
    method Receive(value: string)
      modifies this
      ensures frames == old(frames) + Emitted(old(buffer) + DropBom(value))
      ensures buffer == Rest(old(buffer) + DropBom(value))
    {
      hide Lines, Rest, Frames, Trim, Emitted;
      buffer := buffer + DropBom(value);
      ghost var text, before := buffer, frames;
      var idx := IndexOfNewline(buffer);
      while idx.Some?
        invariant idx == IndexOfNewline(buffer)
        invariant Rest(buffer) == Rest(text)
        invariant frames + Emitted(buffer) == before + Emitted(text)
        decreases |buffer|
      {
        var frame := Trim(buffer[..idx.value]);
        EmittedFirst(buffer, idx.value);
        buffer := buffer[idx.value + 1..];
        if |frame| > 0 {
          frames := frames + [frame];
        }
        idx := IndexOfNewline(buffer);
      }
      EmittedNone(buffer);
    }
  }

  lemma EmittedFirst(s: string, i: nat)
    requires IndexOfNewline(s) == Some(i)
    ensures Emitted(s) == (if Trim(s[..i]) != "" then [Trim(s[..i])] else []) + Emitted(s[i + 1..])
    ensures Rest(s) == Rest(s[i + 1..])
  {
  }

  lemma EmittedNone(s: string)
    requires IndexOfNewline(s).None?
    ensures Emitted(s) == [] && Rest(s) == s
  {
  }

  lemma TextStart(start: string, values: seq<string>)
    requires '\n' !in start
    ensures Emitted(start + Joined(values[..0])) == [] && Rest(start + Joined(values[..0])) == start
    ensures values[..|values|] == values && '\n' !in Rest(start + Joined(values))
  {
    assert start + "" == start;
    LinesStop(start);
    LinesPartition(start + Joined(values));
  }

  lemma TextStep(start: string, values: seq<string>, n: nat)
    requires n < |values|
    ensures var before, after := start + Joined(values[..n]), start + Joined(values[..n + 1]);
            Emitted(after) == Emitted(before) + Emitted(Rest(before) + values[n]) && Rest(after) == Rest(Rest(before) + values[n])
  {
    assert values[..n + 1][..n] == values[..n];
    assert start + Joined(values[..n + 1]) == start + Joined(values[..n]) + values[n];
    EmittedAppend(start + Joined(values[..n]), values[n]);
  }

  /// `split('\n')`
  function SplitLines(s: string): (parts: seq<string>)
    ensures parts == Lines(s) + [Rest(s)]
    decreases |s|
  {
    match IndexOfNewline(s)
    case None => [s]
    case Some(i) =>
      CutLine(s, i);
      [s[..i]] + SplitLines(s[i + 1..])
  }

  lemma CutLine(s: string, i: nat)
    requires IndexOfNewline(s) == Some(i)
    ensures Lines(s) == [s[..i]] + Lines(s[i + 1..]) && Rest(s) == Rest(s[i + 1..])
  {
  }

  /// An RPC connection's buffer and the lines handed to `handleRpc`.
  class RpcConnection {
    var buffer: string
    var handled: seq<string>

    constructor ()
      ensures buffer == "" && handled == []
    {
      buffer, handled := "", [];
    }

    /// One data event.
    method OnData(data: string)
      modifies this
      ensures handled == old(handled) + Emitted(old(buffer) + data)
      ensures buffer == Rest(old(buffer) + data)
    {
      hide Lines, Rest, Trim, SplitLines;
      buffer := buffer + data;
      var parts := SplitLines(buffer);
      var lines := parts[..|parts| - 1];
      buffer := parts[|parts| - 1];
      ghost var before := handled;
      for n := 0 to |lines|
        invariant buffer == parts[|parts| - 1]
        invariant handled + Frames(lines[n..]) == before + Frames(lines)
      {
        if Trim(lines[n]) != "" {
          handled := handled + [Trim(lines[n])];
        }
      }
    }
  }

  // ---------- any chunking ----------

  function Joined(chunks: seq<string>): string {
    if chunks == [] then "" else Joined(chunks[..|chunks| - 1]) + chunks[|chunks| - 1]
  }

  /// Frames and buffer after a list of chunks, each taken in as the methods above promise.
  function Decode(chunks: seq<string>): (seq<string>, string) {
    if chunks == [] then ([], "")
    else
      var (frames, buffer) := Decode(chunks[..|chunks| - 1]);
      var text := buffer + chunks[|chunks| - 1];
      (frames + Emitted(text), Rest(text))
  }

  /// What a QUIC channel makes of them.
  function QuicDecode(chunks: seq<string>): (seq<string>, string) {
    Decode(DropBoms(chunks))
  }

  /// However a stream is cut into chunks, the RPC splitter emits the trimmed non-blank complete lines of the whole
  /// and keeps its unfinished end.
  lemma {:induction false} ChunkingIrrelevant(chunks: seq<string>)
    ensures Decode(chunks) == (Emitted(Joined(chunks)), Rest(Joined(chunks)))
  {
    if chunks == [] {
      assert IndexOfNewline("") == None;
    } else {
      ChunkingIrrelevant(chunks[..|chunks| - 1]);
      EmittedAppend(Joined(chunks[..|chunks| - 1]), chunks[|chunks| - 1]);
    }
  }

  // ---------- writing ----------

  function WriteFrame(payload: string): string {
    payload + "\n"
  }

  function Stream(payloads: seq<string>): string {
    if payloads == [] then "" else WriteFrame(payloads[0]) + Stream(payloads[1..])
  }

  /// A payload that survives framing.
  predicate Clean(payload: string) {
    payload != "" && '\n' !in payload && Tight(payload)
  }

  /// Whatever is read, every frame is clean.
  lemma {:induction false} FramesAreClean(lines: seq<string>)
    requires forall l :: l in lines ==> '\n' !in l
    ensures forall f :: f in Frames(lines) ==> Clean(f)
  {
    if lines != [] {
      TrimFacts(lines[0]);
      FramesAreClean(lines[1..]);
    }
  }

  /// The frames are the lines that are not blank, in their order, each without its outer white space.
  ghost predicate FramesAt(lines: seq<string>, frames: seq<string>, at: seq<nat>) {
    && (forall k, l :: 0 <= k < l < |at| ==> at[k] < at[l])
    && (forall i: nat :: i in at <==> i < |lines| && !White(lines[i]))
    && |frames| == |at| && forall k :: 0 <= k < |at| ==> at[k] < |lines| && CoreOf(frames[k], lines[at[k]])
  }

  lemma {:induction false} FramesExact(lines: seq<string>) returns (at: seq<nat>)
    ensures FramesAt(lines, Frames(lines), at)
  {
    at := [];
    if lines != [] {
      var front, last := lines[..|lines| - 1], lines[|lines| - 1];
      assert lines == front + [last];
      at := FramesExact(front);
      FramesConcat(front, [last]);
      TrimExact(last);
      assert Frames([last]) == if Trim(last) != "" then [Trim(last)] else [];
      hide Frames, Trim, White, CoreOf;
      assert forall k :: 0 <= k < |at| ==> at[k] in at;
      if Trim(last) != "" {
        at := at + [|front|];
      }
    }
  }

  lemma {:induction false} CleanFrames(payloads: seq<string>)
    requires forall p :: p in payloads ==> Clean(p)
    ensures Frames(payloads) == payloads
  {
    hide Trim, Tight;
    if payloads != [] {
      assert Clean(payloads[0]);
      TrimFacts(payloads[0]);
      CleanFrames(payloads[1..]);
      assert payloads == [payloads[0]] + payloads[1..];
    }
  }

  lemma {:induction false} StreamIsUnlines(payloads: seq<string>)
    ensures Stream(payloads) == Unlines(payloads)
  {
    if payloads != [] {
      StreamIsUnlines(payloads[1..]);
    }
  }

  /// Reading with the RPC splitter undoes writing, for any chunking, exactly when every payload is not empty, holds no newline and has
  /// no outer white space.
  lemma ReadUndoesWrite(payloads: seq<string>, chunks: seq<string>)
    requires Joined(chunks) == Stream(payloads)
    ensures Decode(chunks).0 == payloads <==> forall p :: p in payloads ==> Clean(p)
    ensures Decode(chunks).1 == ""
  {
    ChunkingIrrelevant(chunks);
    StreamIsUnlines(payloads);
    LinesPartition(Stream(payloads));
    FramesAreClean(Lines(Stream(payloads)));
    if forall p :: p in payloads ==> Clean(p) {
      assert Unlines(payloads) + "" == Stream(payloads);
      LinesUnique(payloads, "");
      CleanFrames(payloads);
    }
    StreamHasNoRest(payloads);
  }

  lemma {:induction false} StreamHasNoRest(payloads: seq<string>)
    ensures Rest(Stream(payloads)) == ""
  {
    if payloads == [] {
      assert IndexOfNewline("") == None;
    } else {
      StreamHasNoRest(payloads[1..]);
      LinesAppend(WriteFrame(payloads[0]), Stream(payloads[1..]));
      LinesAppend(payloads[0], "\n");
      LinesPartition(payloads[0]);
      LinesStep(Rest(payloads[0]), "");
      assert Rest(payloads[0]) + "\n" + "" == Rest(payloads[0]) + "\n";
      assert "" + Stream(payloads[1..]) == Stream(payloads[1..]);
    }
  }

  // ---------- byte order marks ----------

  function Singles(s: string): (r: seq<string>)
    ensures |r| == |s| && forall i :: 0 <= i < |s| ==> r[i] == [s[i]]
  {
    seq(|s|, i requires 0 <= i < |s| => [s[i]])
  }

  /// A chunking loses nothing of the text.
  lemma {:induction false} SinglesJoin(s: string)
    ensures Joined(Singles(s)) == s
    ensures BOM !in Joined(DropBoms(Singles(s)))
  {
    if s != "" {
      var n := |s| - 1;
      SinglesJoin(s[..n]);
      assert Singles(s)[..n] == Singles(s[..n]);
      assert DropBoms(Singles(s))[..n] == DropBoms(Singles(s[..n]));
      assert s == s[..n] + [s[n]];
    }
  }

  /// Frames and rest are made of characters of the text.
  lemma {:induction false} DecodedChars(s: string, c: char)
    requires c !in s
    ensures c !in Rest(s) && forall f :: f in Emitted(s) ==> c !in f
    decreases |s|
  {
    hide Lines, Rest, Trim;
    if '\n' in s {
      var line, after := FirstLine(s);
      LinesStep(line, after);
      assert forall d :: d in line || d in after ==> d in s;
      DecodedChars(after, c);
      TrimFacts(line);
    } else {
      LinesStop(s);
    }
  }

  lemma {:induction false} NoBomToDrop(chunks: seq<string>)
    requires BOM !in Joined(chunks)
    ensures DropBoms(chunks) == chunks
  {
    if chunks != [] {
      var n := |chunks| - 1;
      NoBomToDrop(chunks[..n]);
      assert DropBoms(chunks)[..n] == DropBoms(chunks[..n]);
      assert chunks[n] != "" ==> chunks[n][0] in Joined(chunks);
      assert chunks == chunks[..n] + [chunks[n]] && DropBoms(chunks) == DropBoms(chunks)[..n] + [DropBom(chunks[n])];
    }
  }

  lemma {:induction false} StreamChars(payloads: seq<string>, c: char)
    requires c != '\n'
    ensures c in Stream(payloads) <==> exists p :: p in payloads && c in p
  {
    if payloads != [] {
      StreamChars(payloads[1..], c);
      assert payloads == [payloads[0]] + payloads[1..];
    }
  }

  /// Reading a QUIC channel undoes writing, however the stream is cut, exactly when every payload is clean and
  /// none contains a byte order mark.
  lemma QuicReadUndoesWrite(payloads: seq<string>)
    ensures (forall chunks :: Joined(chunks) == Stream(payloads) ==> QuicDecode(chunks).0 == payloads)
       <==> (forall p :: p in payloads ==> Clean(p) && BOM !in p)
  {
    hide Decode, Emitted, Rest, Lines, Frames, Joined, Stream, Clean;
    var text := Stream(payloads);
    StreamChars(payloads, BOM);
    if forall p :: p in payloads ==> Clean(p) && BOM !in p {
      forall chunks | Joined(chunks) == text ensures QuicDecode(chunks).0 == payloads {
        NoBomToDrop(chunks);
        ReadUndoesWrite(payloads, chunks);
      }
    }
    if forall chunks :: Joined(chunks) == text ==> QuicDecode(chunks).0 == payloads {
      SinglesJoin(text);
      assert QuicDecode(Singles(text)).0 == payloads;
      SinglesRead(text);
    }
  }

  /// Cut into single characters, no mark survives.
  lemma SinglesRead(text: string)
    ensures forall f :: f in QuicDecode(Singles(text)).0 ==> Clean(f) && BOM !in f
    ensures BOM !in QuicDecode(Singles(text)).1
  {
    hide Decode, Clean, Rest, Lines, Frames;
    SinglesJoin(text);
    var thin := Joined(DropBoms(Singles(text)));
    ChunkingIrrelevant(DropBoms(Singles(text)));
    DecodedChars(thin, BOM);
    LinesPartition(thin);
    FramesAreClean(Lines(thin));
  }

  /// The same payload can be read as it was or without its mark.
  lemma MarkIsLost()
    ensures var payload, cut := "a\U{FEFF}b", ["a", "\U{FEFF}b\n"];
            && Clean(payload) && Joined(cut) == Stream([payload])
            && QuicDecode(cut).0 == ["ab"] && Decode(cut).0 == [payload]
  {
    hide Lines, Rest, Emitted, Frames, Decode, Trim, IndexOfNewline;
    var payload, cut := "a\U{FEFF}b", ["a", "\U{FEFF}b\n"];
    assert cut[..1] == ["a"] && ["a"][..0] == [];
    assert Joined(["a"]) == "a";
    assert Joined(cut) == payload + "\n" == Stream([payload]);
    assert Clean(payload) && Clean("ab");
    ReadUndoesWrite([payload], cut);
    assert DropBoms(cut) == ["a", "b\n"];
    assert ["a", "b\n"][..1] == ["a"];
    assert Joined(["a", "b\n"]) == "ab\n" == Stream(["ab"]);
    ReadUndoesWrite(["ab"], ["a", "b\n"]);
  }

  // ---------- when the two decoders agree ----------

  /// `u` is `t` without some of its marks.
  ghost predicate Thinned(u: string, t: string)
    decreases |t|
  {
    if t == "" then u == ""
    else (u != "" && u[0] == t[0] && Thinned(u[1..], t[1..])) || (t[0] == BOM && Thinned(u, t[1..]))
  }

  lemma {:induction false} ThinnedSame(t: string)
    ensures Thinned(t, t)
  {
    if t != "" {
      ThinnedSame(t[1..]);
    }
  }

  lemma {:induction false} ThinnedConcat(u: string, t: string, u': string, t': string)
    requires Thinned(u, t) && Thinned(u', t')
    ensures Thinned(u + u', t + t')
    decreases |t|
  {
    if t == "" {
      assert u + u' == u' && t + t' == t';
    } else {
      assert (t + t')[1..] == t[1..] + t';
      if u != "" && u[0] == t[0] && Thinned(u[1..], t[1..]) {
        assert (u + u')[1..] == u[1..] + u';
        ThinnedConcat(u[1..], t[1..], u', t');
      } else {
        ThinnedConcat(u, t[1..], u', t');
      }
    }
  }

  lemma {:induction false} ThinnedSplit(u: string, x: string, y: string) returns (v: string, w: string)
    requires Thinned(u, x + y)
    ensures u == v + w && Thinned(v, x) && Thinned(w, y)
    decreases |x|
  {
    if x == "" {
      assert x + y == y;
      v, w := "", u;
    } else {
      assert (x + y)[1..] == x[1..] + y;
      if u != "" && u[0] == x[0] && Thinned(u[1..], x[1..] + y) {
        v, w := ThinnedSplit(u[1..], x[1..], y);
        v := [u[0]] + v;
        assert u == [u[0]] + u[1..];
      } else {
        v, w := ThinnedSplit(u, x[1..], y);
      }
    }
  }

  lemma {:induction false} ThinnedChars(u: string, t: string)
    requires Thinned(u, t)
    ensures forall c :: c in u ==> c in t
    ensures BOM !in t ==> u == t
    decreases |t|
  {
    if t != "" {
      if u != "" && u[0] == t[0] && Thinned(u[1..], t[1..]) {
        ThinnedChars(u[1..], t[1..]);
        assert u == [u[0]] + u[1..] && t == [t[0]] + t[1..];
      } else {
        assert t == [t[0]] + t[1..];
        ThinnedChars(u, t[1..]);
      }
    }
  }

  lemma {:induction false} DroppedIsThinned(chunks: seq<string>)
    ensures Thinned(Joined(DropBoms(chunks)), Joined(chunks))
  {
    if chunks != [] {
      var n := |chunks| - 1;
      var value := chunks[n];
      DroppedIsThinned(chunks[..n]);
      assert DropBoms(chunks)[..n] == DropBoms(chunks[..n]);
      ThinnedSame(value);
      if value != "" {
        ThinnedSame(value[1..]);
      }
      ThinnedConcat(Joined(DropBoms(chunks[..n])), Joined(chunks[..n]), DropBom(value), value);
    }
  }

  predicate Blank(s: string) {
    forall c :: c in s ==> IsSpace(c)
  }

  /// Trimming takes white space off both ends.
  lemma TrimParts(s: string) returns (a: string, b: string)
    ensures s == a + Trim(s) + b && Blank(a) && Blank(b)
  {
    a := TrimStartParts(s);
    b := TrimEndParts(TrimStart(s));
    assert s == a + (Trim(s) + b);
  }

  lemma {:induction false} TrimStartParts(s: string) returns (a: string)
    ensures s == a + TrimStart(s) && Blank(a)
  {
    a := "";
    if s != "" && IsSpace(s[0]) {
      a := TrimStartParts(s[1..]);
      a := [s[0]] + a;
      assert s == [s[0]] + s[1..];
    }
  }

  lemma {:induction false} TrimEndParts(s: string) returns (b: string)
    ensures s == TrimEnd(s) + b && Blank(b)
  {
    b := "";
    if s != "" && IsSpace(s[|s| - 1]) {
      b := TrimEndParts(s[..|s| - 1]);
      b := b + [s[|s| - 1]];
      assert s == s[..|s| - 1] + [s[|s| - 1]];
    }
  }

  /// Whatever white space stands around a tight text, trimming gives the text.
  lemma TrimAround(a: string, m: string, b: string)
    requires Blank(a) && Blank(b) && Tight(m)
    ensures Trim(a + m + b) == m
  {
    if m == "" {
      assert a + m + b == a + b;
      assert Blank(a + b);
      TrimStartAround(a + b, "");
      assert a + b + "" == a + b;
    } else {
      assert a + m + b == a + (m + b);
      TrimStartAround(a, m + b);
      TrimEndAround(m, b);
    }
  }

  lemma {:induction false} TrimStartAround(a: string, m: string)
    requires Blank(a) && (m == "" || !IsSpace(m[0]))
    ensures TrimStart(a + m) == m
  {
    if a == "" {
      assert a + m == m;
    } else {
      assert (a + m)[1..] == a[1..] + m && a[0] in a;
      TrimStartAround(a[1..], m);
    }
  }

  lemma {:induction false} TrimEndAround(m: string, b: string)
    requires Blank(b) && m != "" && !IsSpace(m[|m| - 1])
    ensures TrimEnd(m + b) == m
  {
    if b == "" {
      assert m + b == m;
    } else {
      var n := |b| - 1;
      assert (m + b)[..|m + b| - 1] == m + b[..n] && b[n] in b;
      TrimEndAround(m, b[..n]);
    }
  }

  /// Marks outside the trimmed part do not matter.
  lemma ThinnedTrim(u: string, t: string)
    requires Thinned(u, t) && BOM !in Trim(t)
    ensures Trim(u) == Trim(t)
  {
    hide Trim, Thinned;
    var a, b := TrimParts(t);
    TrimFacts(t);
    var v, w := ThinnedSplit(u, a + Trim(t), b);
    var x, y := ThinnedSplit(v, a, Trim(t));
    ThinnedChars(x, a);
    ThinnedChars(y, Trim(t));
    ThinnedChars(w, b);
    TrimAround(x, y, w);
  }

  lemma {:induction false} ThinnedDecode(u: string, t: string)
    requires Thinned(u, t) && BOM !in Rest(t) && forall f :: f in Emitted(t) ==> BOM !in f
    ensures Emitted(u) == Emitted(t) && Rest(u) == Rest(t)
    decreases |t|
  {
    hide Lines, Rest, Trim;
    if '\n' in t {
      var line, after := FirstLine(t);
      LinesStep(line, after);
      assert t == line + ("\n" + after);
      var v, w := ThinnedSplit(u, line, "\n" + after);
      var nl, rest := ThinnedSplit(w, "\n", after);
      ThinnedChars(v, line);
      ThinnedChars(nl, "\n");
      assert u == v + "\n" + rest;
      LinesStep(v, rest);
      assert Emitted(t) == (if Trim(line) != "" then [Trim(line)] else []) + Emitted(after);
      assert Trim(line) != "" ==> Trim(line) in Emitted(t);
      ThinnedTrim(v, line);
      ThinnedDecode(rest, after);
    } else {
      LinesStop(t);
      ThinnedChars(u, t);
    }
  }

  /// The two decoders make the same of a text, however it is cut, exactly when no mark is left in a frame or in the
  /// unfinished end: marks in outer white space are trimmed anyway.
  lemma DecodersAgree(text: string)
    ensures (forall chunks :: Joined(chunks) == text ==> QuicDecode(chunks) == Decode(chunks))
       <==> BOM !in Rest(text) && forall f :: f in Emitted(text) ==> BOM !in f
  {
    hide Decode, Emitted, Rest, Lines, Frames, Joined, Thinned;
    if BOM !in Rest(text) && forall f :: f in Emitted(text) ==> BOM !in f {
      forall chunks | Joined(chunks) == text ensures QuicDecode(chunks) == Decode(chunks) {
        DroppedIsThinned(chunks);
        ThinnedDecode(Joined(DropBoms(chunks)), text);
        ChunkingIrrelevant(chunks);
        ChunkingIrrelevant(DropBoms(chunks));
      }
    }
    if forall chunks :: Joined(chunks) == text ==> QuicDecode(chunks) == Decode(chunks) {
      SinglesJoin(text);
      assert QuicDecode(Singles(text)) == Decode(Singles(text));
      ChunkingIrrelevant(Singles(text));
      SinglesRead(text);
    }
  }
}
