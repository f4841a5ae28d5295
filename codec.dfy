/** The table-data file format: each non-empty block of rows is written as its
    serialised length in decimal, a newline, and the serialised bytes; the file ends
    with the bytes `EOF`.  The reader takes a line, stops at `EOF` or at end of file,
    and otherwise reads exactly the announced number of bytes and deserialises them. */
module Codec {
  import opened Common
  import opened Catalog
  import opened Scope

  /** pickle as seen from outside: `dump` turns a block into bytes, `load` turns bytes
      back into a block or rejects them. */
  datatype Serializer = Serializer(dump: Block -> seq<byte>, load: seq<byte> -> Option<Block>)

  /** `load` undoes `dump` on the given blocks. */
  predicate LoadsBack(ser: Serializer, blocks: seq<Block>)
  {
    forall i :: 0 <= i < |blocks| ==> ser.load(ser.dump(blocks[i])) == Some(blocks[i])
  }

  // ---------------------------------------------------------------------------
  // Writing

  /** The line announcing a block of `n` bytes: `'{}\n'.format(n)`. */
  function LengthLine(n: nat): seq<byte>
  {
    Decimal(n) + [NEWLINE]
  }

  function Frame(ser: Serializer, b: Block): seq<byte>
  {
    LengthLine(|ser.dump(b)|) + ser.dump(b)
  }

  function Frames(ser: Serializer, blocks: seq<Block>): seq<byte>
  {
    if blocks == [] then [] else Frame(ser, blocks[0]) + Frames(ser, blocks[1..])
  }

  /** The whole file written for a table whose fetches returned `blocks`. */
  function Encode(ser: Serializer, blocks: seq<Block>): seq<byte>
  {
    Frames(ser, blocks) + EOF_MARK
  }

  /** What successive `fetchmany(n)` calls return, up to the first empty one. */
  function Chunks(rows: seq<Row>, n: nat): seq<Block>
    requires n > 0
    decreases |rows|
  {
    if rows == [] then [] else [rows[..Min(n, |rows|)]] + Chunks(rows[Min(n, |rows|)..], n)
  }

  function Flatten(blocks: seq<Block>): seq<Row>
  {
    if blocks == [] then [] else blocks[0] + Flatten(blocks[1..])
  }

  /** The fetched blocks are non-empty, hold at most `n` rows, and together are the
      result set in order. */
  lemma {:induction false} ChunksPartition(rows: seq<Row>, n: nat)
    requires n > 0
    ensures Flatten(Chunks(rows, n)) == rows
    ensures forall i :: 0 <= i < |Chunks(rows, n)| ==> 0 < |Chunks(rows, n)[i]| <= n
  {
    if rows != [] {
      var k := Min(n, |rows|);
      ChunksPartition(rows[k..], n);
      assert rows[..k] + rows[k..] == rows;
      var c := Chunks(rows, n);
      assert c[1..] == Chunks(rows[k..], n);
    }
  }

  /** An empty table produces exactly the `EOF` sentinel. */
  lemma EmptyTableIsJustEof(ser: Serializer)
    ensures Encode(ser, Chunks([], 1)) == EOF_MARK
  {
  }

  // ---------------------------------------------------------------------------
  // Reading, as `readline()` and `read(n)` on a file opened for reading

  /** `readline()`: everything up to and including the first newline, or the rest of
      the file if there is none (empty at end of file). */
  function NextLine(s: seq<byte>): (r: (seq<byte>, seq<byte>))
    ensures r.0 + r.1 == s
    ensures s != [] ==> r.0 != []
  {
    if s == [] then ([], [])
    else if s[0] == NEWLINE then ([NEWLINE], s[1..])
    else var (l, t) := NextLine(s[1..]); ([s[0]] + l, t)
  }

  /** `read(n)`: the next `n` bytes, fewer at end of file; a negative `n` reads all. */
  function NextBytes(s: seq<byte>, n: int): (r: (seq<byte>, seq<byte>))
    ensures r.0 + r.1 == s
  {
    if n < 0 then (s, []) else (s[..Min(n, |s|)], s[Min(n, |s|)..])
  }

  datatype Decoded = Decoded(blocks: seq<Block>, failure: Option<Failure>)

  /** The blocks the reading loop yields, in file order, and how it ended: cleanly (at
      an `EOF` line or at end of file) or with the line `int()` rejects or the block
      the deserialiser rejects. */
  function Decode(ser: Serializer, s: seq<byte>): Decoded
    decreases |s|
  {
    var (line, after) := NextLine(s);
    if line == [] || line == EOF_MARK then Decoded([], None)
    else match ParseInt(line)
      case None => Decoded([], Some(BadLength(line)))
      case Some(n) =>
        var (buf, next) := NextBytes(after, n);
        match ser.load(buf)
        case None => Decoded([], Some(BadBlock))
        case Some(b) =>
          var rest := Decode(ser, next);
          Decoded([b] + rest.blocks, rest.failure)
  }

  lemma {:induction false} NextLineOfLengthLine(d: seq<byte>, rest: seq<byte>)
    requires NEWLINE !in d
    ensures NextLine(d + [NEWLINE] + rest) == (d + [NEWLINE], rest)
  {
    if d != [] {
      assert (d + [NEWLINE] + rest)[1..] == d[1..] + [NEWLINE] + rest;
      NextLineOfLengthLine(d[1..], rest);
      assert [d[0]] + (d[1..] + [NEWLINE]) == d + [NEWLINE];
    }
  }

  lemma NextLineStep(s: seq<byte>)
    requires s != [] && s[0] != NEWLINE
    ensures NextLine(s) == ([s[0]] + NextLine(s[1..]).0, NextLine(s[1..]).1)
  {
  }

  /** A line runs past any prefix free of newlines. */
  lemma {:induction false} NextLineSplit(s: seq<byte>, j: nat)
    requires j <= |s|
    requires forall k :: 0 <= k < j ==> s[k] != NEWLINE
    ensures NextLine(s) == (s[..j] + NextLine(s[j..]).0, NextLine(s[j..]).1)
  {
    if j > 0 {
      NextLineStep(s);
      NextLineSplit(s[1..], j - 1);
      assert s[1..][j - 1..] == s[j..];
      var c := NextLine(s[j..]).0;
      assert NextLine(s[1..]).0 == s[1..][..j - 1] + c;
      assert [s[0]] + (s[1..][..j - 1] + c) == ([s[0]] + s[1..][..j - 1]) + c;
      assert [s[0]] + s[1..][..j - 1] == s[..j];
    } else {
      assert s[..0] + NextLine(s).0 == NextLine(s).0;
      assert s[0..] == s;
    }
  }

  lemma {:induction false} NextLineWithoutNewline(d: seq<byte>)
    requires NEWLINE !in d
    ensures NextLine(d) == (d, [])
  {
    if d != [] {
      NextLineWithoutNewline(d[1..]);
      assert [d[0]] + d[1..] == d;
    }
  }

  /** Reading a frame back: the length line is the decimal length, and exactly that
      many bytes follow it. */
  lemma ReadFrame(ser: Serializer, b: Block, rest: seq<byte>)
    ensures var (line, after) := NextLine(Frame(ser, b) + rest);
      && line == LengthLine(|ser.dump(b)|)
      && line != EOF_MARK
      && ParseInt(line) == Some(|ser.dump(b)|)
      && NextBytes(after, |ser.dump(b)|) == (ser.dump(b), rest)
  {
    var buf := ser.dump(b);
    var d := Decimal(|buf|);
    DecimalReadsBack(|buf|);
    assert forall i :: 0 <= i < |d| ==> d[i] != NEWLINE;
    assert Frame(ser, b) + rest == d + [NEWLINE] + (buf + rest);
    NextLineOfLengthLine(d, buf + rest);
    assert (d + [NEWLINE])[|d|] == NEWLINE;
    assert EOF_MARK[2] != NEWLINE;
    LengthLineParses(|buf|);
    assert (buf + rest)[..|buf|] == buf && (buf + rest)[|buf|..] == rest;
  }

  /** Round trip: reading what the writer wrote yields the written blocks, in order,
      and ends cleanly at the sentinel. */
  lemma {:induction false} DecodeEncode(ser: Serializer, blocks: seq<Block>)
    requires LoadsBack(ser, blocks)
    ensures Decode(ser, Encode(ser, blocks)) == Decoded(blocks, None)
  {
    if blocks == [] {
      assert Encode(ser, blocks) == EOF_MARK;
      NextLineWithoutNewline(EOF_MARK);
    } else {
      var b := blocks[0];
      var tail := Encode(ser, blocks[1..]);
      assert Encode(ser, blocks) == Frame(ser, b) + tail;
      ReadFrame(ser, b, tail);
      assert LoadsBack(ser, blocks[1..]) by {
        forall i | 0 <= i < |blocks[1..]| ensures ser.load(ser.dump(blocks[1..][i])) == Some(blocks[1..][i]) {
          assert blocks[1..][i] == blocks[i + 1];
        }
      }
      DecodeEncode(ser, blocks[1..]);
      assert [b] + blocks[1..] == blocks;
    }
  }

  /** A table's rows survive the trip through its backup file. */
  lemma RowsSurvive(ser: Serializer, rows: seq<Row>, n: nat)
    requires n > 0
    requires LoadsBack(ser, Chunks(rows, n))
    ensures Decode(ser, Encode(ser, Chunks(rows, n))).failure == None
    ensures Flatten(Decode(ser, Encode(ser, Chunks(rows, n))).blocks) == rows
  {
    DecodeEncode(ser, Chunks(rows, n));
    ChunksPartition(rows, n);
  }

  // ---------------------------------------------------------------------------
  // File handles

  /** The backup directory: file name to content. */
  class Directory {
    var files: map<string, seq<byte>>

    constructor (files: map<string, seq<byte>>)
      ensures this.files == files
    {
      this.files := files;
    }
  }

  /** A file opened for writing: what has been written so far. */
  class OutFile {
    var content: seq<byte>

    constructor ()
      ensures content == []
    {
      content := [];
    }

    method Write(bs: seq<byte>)
      modifies this
      ensures content == old(content) + bs
    {
      content := content + bs;
    }
  }

  /** A file opened for reading: its bytes and the read position. */
  class InFile {
    const content: seq<byte>
    var pos: nat

    ghost predicate Valid()
      reads this
    {
      pos <= |content|
    }

    function Rest(): seq<byte>
      reads this
      requires Valid()
    {
      content[pos..]
    }

    constructor (content: seq<byte>)
      ensures Valid() && this.content == content && pos == 0
    {
      this.content := content;
      pos := 0;
    }

    method ReadLine() returns (line: seq<byte>)
      requires Valid()
      modifies this
      ensures Valid()
      ensures (line, Rest()) == NextLine(old(Rest()))
    {
      var i := pos;
      while i < |content| && content[i] != NEWLINE
        invariant pos <= i <= |content|
        invariant forall k :: pos <= k < i ==> content[k] != NEWLINE
      {
        i := i + 1;
      }
      ghost var s := content[pos..];
      assert s[..i - pos] == content[pos..i] && s[i - pos..] == content[i..];
      NextLineSplit(s, i - pos);
      if i < |content| {
        assert content[i..][1..] == content[i + 1..];
        assert content[pos..i] + [NEWLINE] == content[pos..i + 1];
        i := i + 1;
      } else {
        assert content[pos..i] + [] == content[pos..i];
      }
      line := content[pos..i];
      pos := i;
    }

    method Read(n: int) returns (buf: seq<byte>)
      requires Valid()
      modifies this
      ensures Valid()
      ensures (buf, Rest()) == NextBytes(old(Rest()), n)
    {
      var k := if n < 0 then |content| - pos else Min(n, |content| - pos);
      assert content[pos..][..k] == content[pos..pos + k];
      assert content[pos..][k..] == content[pos + k..];
      buf := content[pos..pos + k];
      pos := pos + k;
    }
  }
}
